/** The in-memory broker: a map from topics to queues that live on the heap, publishers and
    consumers interleaving with subscribe and unsubscribe. Every subscription period of a topic
    has its own queue, named by a number that is never used again. */
module MessageBroker {
  import opened Results

  type Topic = string
  type QueueId = nat
  type Tid = nat

  /** A zero timestamp is the clock's epoch, which stands for "not set". */
  datatype Message = Message(topic: Topic, payload: string, id: string, timestamp: int)

  /** Where a publisher or consumer stands between two critical sections. */
  datatype Phase =
    | Outside
    | Publishing(msg: Message)               // m_running seen, mutex not yet taken
    | Consuming(topic: Topic)                // m_running seen, mutex not yet taken
    | Waiting(topic: Topic, queue: QueueId)  // in wait_for, holding a reference to the queue

  /** What the broker object stores. */
  datatype Store = Store(index: map<Topic, QueueId>, queues: map<QueueId, seq<Message>>, next: QueueId, running: bool)

  /** The history of one subscription period. */
  datatype Period = Period(topic: Topic, accepted: seq<Message>, consumed: seq<Message>)

  datatype State = State(
    store: Store,
    threads: seq<Phase>,
    periods: map<QueueId, Period>,
    corrupt: bool)               // a reference to a destroyed queue was used

  datatype Step =
    | BeginPublish(t: Tid, msg: Message)
    | Publish(t: Tid, id: string, now: int)  // id and now are used where the message has none
    | BeginConsume(t: Tid, topic: Topic)
    | Consume(t: Tid)                        // from taking the mutex to returning or waiting
    | Resume(t: Tid)                         // wait over: notified or timed out
    | Subscribe(topic: Topic)
    | Unsubscribe(topic: Topic)
    | Stop                                   // the destructor clears m_running

  // ---- The critical sections on the store ----

  function Enriched(m: Message, id: string, now: int): Message {
    m.(id := if m.id == "" then id else m.id, timestamp := if m.timestamp == 0 then now else m.timestamp)
  }

  function Pushed(s: Store, m: Message): Store
    requires m.topic in s.index && s.index[m.topic] in s.queues
  {
    var q := s.index[m.topic];
    s.(queues := s.queues[q := s.queues[q] + [m]])
  }

  function PoppedFrom(s: Store, q: QueueId): Store
    requires q in s.queues && s.queues[q] != []
  {
    s.(queues := s.queues[q := s.queues[q][1..]])
  }

  function Subscribed(s: Store, topic: Topic): Store {
    s.(index := s.index[topic := s.next], queues := s.queues[s.next := []], next := s.next + 1)
  }

  function Unsubscribed(s: Store, topic: Topic): Store
    requires topic in s.index
  {
    s.(index := s.index - {topic}, queues := s.queues - {s.index[topic]})
  }

  // ---- The steps ----

  predicate Enabled(s: State, step: Step) {
    match step
    case BeginPublish(t, _) => t < |s.threads| && s.threads[t].Outside? && s.store.running
    case Publish(t, _, _) => t < |s.threads| && s.threads[t].Publishing?
    case BeginConsume(t, _) => t < |s.threads| && s.threads[t].Outside? && s.store.running
    case Consume(t) => t < |s.threads| && s.threads[t].Consuming?
    case Resume(t) => t < |s.threads| && s.threads[t].Waiting?
    case Subscribe(topic) => topic != "" && topic !in s.store.index
    case Unsubscribe(topic) => topic in s.store.index
    case Stop => true
  }

  function Leave(s: State, t: Tid): State
    requires t < |s.threads|
  {
    s.(threads := s.threads[t := Outside])
  }

  /** The end of `consume`: the front of the queue if the broker runs and there is one. */
  function Taken(s: State, t: Tid, q: QueueId): State
    requires t < |s.threads| && q in s.store.queues && q in s.periods
  {
    if !s.store.running || s.store.queues[q] == [] then Leave(s, t)
    else
      var p := s.periods[q];
      Leave(s, t).(store := PoppedFrom(s.store, q),
                   periods := s.periods[q := p.(consumed := p.consumed + [s.store.queues[q][0]])])
  }

  /** All queues have a recorded period. */
  predicate Recorded(s: State) {
    && (forall topic | topic in s.store.index :: s.store.index[topic] in s.store.queues)
    && s.store.queues.Keys <= s.periods.Keys
  }

  function Do(s: State, step: Step): (s': State)
    requires Enabled(s, step) && Recorded(s)
    ensures |s'.threads| == |s.threads|
  {
    match step
    case BeginPublish(t, msg) => s.(threads := s.threads[t := Publishing(msg)])
    case Publish(t, id, now) =>
      var m := Enriched(s.threads[t].msg, id, now);
      if m.topic !in s.store.index then Leave(s, t)
      else
        var q := s.store.index[m.topic];
        var p := s.periods[q];
        Leave(s, t).(store := Pushed(s.store, m),
                     periods := s.periods[q := p.(accepted := p.accepted + [m])])
    case BeginConsume(t, topic) => s.(threads := s.threads[t := Consuming(topic)])
    case Consume(t) =>
      var topic := s.threads[t].topic;
      if topic !in s.store.index then Leave(s, t)
      else
        var q := s.store.index[topic];
        if s.store.queues[q] == [] then s.(threads := s.threads[t := Waiting(topic, q)])
        else Taken(s, t, q)
    case Resume(t) =>
      var q := s.threads[t].queue;
      if q !in s.store.queues then Leave(s, t).(corrupt := true)
      else Taken(s, t, q)
    case Subscribe(topic) =>
      s.(store := Subscribed(s.store, topic), periods := s.periods[s.store.next := Period(topic, [], [])])
    case Unsubscribe(topic) => s.(store := Unsubscribed(s.store, topic))
    case Stop => s.(store := s.store.(running := false))
  }

  function Init(threads: nat): State {
    State(Store(map[], map[], 0, true), seq(threads, _ => Outside), map[], false)
  }

  predicate Legal(s: State, run: seq<Step>)
    decreases |run|
  {
    run == [] || (Recorded(s) && Enabled(s, run[0]) && Legal(Do(s, run[0]), run[1..]))
  }

  function Exec(s: State, run: seq<Step>): State
    requires Legal(s, run)
    decreases |run|
  {
    if run == [] then s else Exec(Do(s, run[0]), run[1..])
  }

  // ---- The invariant ----

  /** For every period: all accepted messages are of its topic, what was consumed is a prefix of
      what was accepted, and while the queue lives it holds exactly the rest. */
  ghost predicate Fifo(s: State) {
    forall q | q in s.periods ::
      var p := s.periods[q];
      && (forall i | 0 <= i < |p.accepted| :: p.accepted[i].topic == p.topic)
      && p.consumed <= p.accepted
      && (q in s.store.queues ==> p.accepted == p.consumed + s.store.queues[q])
  }

  /** The living queues are those of the current periods of the subscribed topics. */
  ghost predicate Indexed(s: State) {
    && Recorded(s)
    && (forall q | q in s.periods :: q < s.store.next)
    && (forall topic | topic in s.store.index :: s.periods[s.store.index[topic]].topic == topic)
    && (forall q | q in s.store.queues ::
          s.periods[q].topic in s.store.index && s.store.index[s.periods[q].topic] == q)
  }

  /** A waiting consumer's reference is to a period, living or over, of the topic it asked for. */
  ghost predicate References(s: State) {
    forall t | 0 <= t < |s.threads| && s.threads[t].Waiting? ::
      s.threads[t].queue in s.periods && s.periods[s.threads[t].queue].topic == s.threads[t].topic
  }

  ghost predicate Inv(s: State) { Indexed(s) && References(s) && Fifo(s) }

  /** Same topics, same queues, possibly other contents. */
  ghost predicate SameShape(s: State, d: State) {
    && d.store.index == s.store.index
    && d.store.queues.Keys == s.store.queues.Keys
    && d.store.next == s.store.next
    && d.periods.Keys == s.periods.Keys
    && (forall q | q in s.periods :: d.periods[q].topic == s.periods[q].topic)
  }

  lemma SameShapeIndexed(s: State, d: State)
    requires Indexed(s) && SameShape(s, d)
    ensures Indexed(d)
  {
    assert forall q | q in d.store.queues :: q in s.store.queues;
  }

  lemma SubscribeIndexed(s: State, topic: Topic)
    requires Indexed(s) && Enabled(s, Subscribe(topic))
    ensures Indexed(Do(s, Subscribe(topic)))
  {
    var d := Do(s, Subscribe(topic));
    assert d.store.index == s.store.index[topic := s.store.next];
    assert forall q | q in d.store.queues :: q in s.store.queues || q == s.store.next;
  }

  lemma UnsubscribeIndexed(s: State, topic: Topic)
    requires Indexed(s) && Enabled(s, Unsubscribe(topic))
    ensures Indexed(Do(s, Unsubscribe(topic)))
  {
  }

  lemma TakenShape(s: State, t: Tid, q: QueueId)
    requires t < |s.threads| && q in s.store.queues && q in s.periods
    ensures SameShape(s, Taken(s, t, q))
  {
  }

  lemma IndexedStep(s: State, step: Step)
    requires Indexed(s) && References(s) && Enabled(s, step)
    ensures Indexed(Do(s, step))
  {
    match step
    case Subscribe(topic) => SubscribeIndexed(s, topic);
    case Unsubscribe(topic) => UnsubscribeIndexed(s, topic);
    case Consume(t) =>
      var topic := s.threads[t].topic;
      if topic in s.store.index {
        TakenShape(s, t, s.store.index[topic]);
      }
      SameShapeIndexed(s, Do(s, step));
    case Resume(t) =>
      if s.threads[t].queue in s.store.queues {
        TakenShape(s, t, s.threads[t].queue);
      }
      SameShapeIndexed(s, Do(s, step));
    case _ =>
      SameShapeIndexed(s, Do(s, step));
  }

  /** Periods are only extended: what was accepted or consumed stays, in its place. */
  ghost predicate Extends(p: Period, later: Period) {
    later.topic == p.topic && p.accepted <= later.accepted && p.consumed <= later.consumed
  }

  lemma StepExtends(s: State, step: Step)
    requires Indexed(s) && Enabled(s, step)
    ensures forall q | q in s.periods :: q in Do(s, step).periods && Extends(s.periods[q], Do(s, step).periods[q])
  {
  }

  /** A consumer that waits after a step waited before it, or has just looked up its topic. */
  lemma WaitingSince(s: State, step: Step, t: Tid)
    requires Indexed(s) && Enabled(s, step) && t < |s.threads| && Do(s, step).threads[t].Waiting?
    ensures var w := Do(s, step).threads[t];
      || s.threads[t] == w
      || (w.topic in s.store.index && s.store.index[w.topic] == w.queue)
  {
  }

  lemma ReferencesStep(s: State, step: Step)
    requires Indexed(s) && References(s) && Enabled(s, step)
    ensures References(Do(s, step))
  {
    hide Do;
    var d := Do(s, step);
    StepExtends(s, step);
    forall t | 0 <= t < |d.threads| && d.threads[t].Waiting?
      ensures d.threads[t].queue in d.periods && d.periods[d.threads[t].queue].topic == d.threads[t].topic
    {
      WaitingSince(s, step, t);
    }
  }

  lemma TakenFifo(s: State, t: Tid, q: QueueId)
    requires t < |s.threads| && q in s.store.queues && q in s.periods && Fifo(s)
    ensures Fifo(Taken(s, t, q))
  {
    var p := s.periods[q];
    if s.store.running && s.store.queues[q] != [] {
      var rest := s.store.queues[q];
      assert p.accepted == p.consumed + rest;
      assert p.consumed + rest == (p.consumed + [rest[0]]) + rest[1..];
    }
  }

  lemma PublishFifo(s: State, t: Tid, id: string, now: int)
    requires Indexed(s) && Fifo(s) && Enabled(s, Publish(t, id, now))
    ensures Fifo(Do(s, Publish(t, id, now)))
  {
    var m := Enriched(s.threads[t].msg, id, now);
    if m.topic in s.store.index {
      var q := s.store.index[m.topic];
      var p := s.periods[q];
      assert p.accepted == p.consumed + s.store.queues[q];
      assert p.accepted + [m] == p.consumed + (s.store.queues[q] + [m]);
    }
  }

  lemma FifoStep(s: State, step: Step)
    requires Inv(s) && Enabled(s, step)
    ensures Fifo(Do(s, step))
  {
    match step
    case Publish(t, id, now) => PublishFifo(s, t, id, now);
    case Consume(t) =>
      var topic := s.threads[t].topic;
      if topic in s.store.index {
        TakenFifo(s, t, s.store.index[topic]);
      }
    case Resume(t) =>
      if s.threads[t].queue in s.store.queues {
        TakenFifo(s, t, s.threads[t].queue);
      }
    case _ =>
  }

  lemma StepKeepsInv(s: State, step: Step)
    requires Inv(s) && Enabled(s, step)
    ensures Inv(Do(s, step))
  {
    IndexedStep(s, step);
    ReferencesStep(s, step);
    FifoStep(s, step);
  }

  lemma {:induction false} RunKeepsInv(s: State, run: seq<Step>)
    requires Inv(s) && Legal(s, run)
    ensures Inv(Exec(s, run))
    decreases |run|
  {
    if run != [] {
      StepKeepsInv(s, run[0]);
      RunKeepsInv(Do(s, run[0]), run[1..]);
    }
  }

  // ---- Main results ----

  /** Exactly once, in order, under every interleaving: for each subscription period the accepted
      messages are the consumed ones followed by the pending ones while the queue lives, and start
      with the consumed ones for ever; all of them were published to the period's topic. */
  lemma ReachableFifo(threads: nat, run: seq<Step>)
    requires Legal(Init(threads), run)
    ensures var s := Exec(Init(threads), run); Fifo(s) && Indexed(s)
  {
    RunKeepsInv(Init(threads), run);
  }

  /** What a publication adds: one message with the publisher's topic and payload, and with its id
      and time unless these were not set, at the end of the topic's current period and nowhere else;
      nothing if the topic is not subscribed. */
  lemma PublishAccepts(s: State, t: Tid, id: string, now: int, q: QueueId)
    requires Inv(s) && Enabled(s, Publish(t, id, now)) && q in s.periods
    ensures var m := s.threads[t].msg;
      var before, after := s.periods[q], Do(s, Publish(t, id, now)).periods[q];
      && after.consumed == before.consumed
      && if m.topic in s.store.index && s.store.index[m.topic] == q then
           && |after.accepted| == |before.accepted| + 1 && before.accepted <= after.accepted
           && var a := after.accepted[|before.accepted|];
              a.topic == m.topic == before.topic && a.payload == m.payload
              && (if m.id == "" then a.id == id else a.id == m.id)
              && (if m.timestamp == 0 then a.timestamp == now else a.timestamp == m.timestamp)
         else after == before
  {
  }

  /** A message handed to a consumer of a topic is the oldest one not yet consumed of those
      accepted for that topic in the period whose queue the consumer refers to. */
  lemma ConsumedIsOldest(s: State, step: Step, q: QueueId)
    requires Inv(s) && Enabled(s, step) && q in s.periods && q in Do(s, step).periods
    requires Do(s, step).periods[q].consumed != s.periods[q].consumed
    ensures step.Consume? || step.Resume?
    ensures s.threads[step.t].topic == s.periods[q].topic
    ensures var k := |s.periods[q].consumed|;
      k < |s.periods[q].accepted| && Do(s, step).periods[q].consumed == s.periods[q].accepted[..k + 1]
  {
    match step
    case Consume(t) =>
      var topic := s.threads[t].topic;
      if topic in s.store.index {
        TakenIsOldest(s, t, s.store.index[topic], q);
      }
    case Resume(t) =>
      if s.threads[t].queue in s.store.queues {
        TakenIsOldest(s, t, s.threads[t].queue, q);
      }
    case _ =>
  }

  lemma TakenIsOldest(s: State, t: Tid, from: QueueId, q: QueueId)
    requires Fifo(s) && t < |s.threads| && from in s.store.queues && from in s.periods && q in s.periods
    requires Taken(s, t, from).periods[q].consumed != s.periods[q].consumed
    ensures q == from
    ensures var k := |s.periods[q].consumed|;
      k < |s.periods[q].accepted| && Taken(s, t, from).periods[q].consumed == s.periods[q].accepted[..k + 1]
  {
    var p := s.periods[q];
    assert p.accepted == p.consumed + s.store.queues[q];
    assert p.accepted[..|p.consumed| + 1] == p.consumed + [s.store.queues[q][0]];
  }

  /** The living queue that a consumer looks into in this step. */
  function LooksAt(s: State, step: Step): Option<QueueId>
    requires Enabled(s, step) && (step.Consume? || step.Resume?)
  {
    var p := s.threads[step.t];
    if step.Resume? then (if p.queue in s.store.queues then Some(p.queue) else None)
    else if p.topic in s.store.index then Some(s.store.index[p.topic])
    else None
  }

  /** When a consumer leaves without a message: exactly if its topic is not subscribed or its queue
      was destroyed, the broker is stopped, or after the wait the queue is still empty. A queue
      found empty before the wait makes it wait instead. */
  lemma EmptyHandedIff(s: State, step: Step)
    requires Inv(s) && Enabled(s, step) && (step.Consume? || step.Resume?)
    ensures var d := Do(s, step);
      d.threads[step.t].Outside? && d.periods == s.periods <==>
        match LooksAt(s, step)
        case None => true
        case Some(q) => if s.store.queues[q] == [] then step.Resume? else !s.store.running
    ensures Do(s, step).threads[step.t].Waiting? <==>
      step.Consume? && LooksAt(s, step).Some? && s.store.queues[LooksAt(s, step).value] == []
  {
    var q := LooksAt(s, step);
    if q.Some? && s.store.running && s.store.queues[q.value] != [] {
      TakenChanges(s, step.t, q.value);
    }
  }

  /** Taking a message is recorded. */
  lemma TakenChanges(s: State, t: Tid, q: QueueId)
    requires t < |s.threads| && q in s.store.queues && q in s.periods && s.store.running && s.store.queues[q] != []
    ensures Taken(s, t, q).periods != s.periods
  {
    assert |Taken(s, t, q).periods[q].consumed| == |s.periods[q].consumed| + 1;
  }

  lemma {:induction false} HistoryIsAppendOnly(s: State, run: seq<Step>, q: QueueId)
    requires Inv(s) && Legal(s, run) && q in s.periods
    ensures q in Exec(s, run).periods && Extends(s.periods[q], Exec(s, run).periods[q])
    decreases |run|
  {
    if run != [] {
      StepExtends(s, run[0]);
      StepKeepsInv(s, run[0]);
      HistoryIsAppendOnly(Do(s, run[0]), run[1..], q);
    }
  }

  // ---- Stopping ----

  /** What a run hands out: the consumed messages of every period. */
  ghost predicate SameConsumed(s: State, e: State) {
    forall q | q in s.periods :: q in e.periods && e.periods[q].consumed == s.periods[q].consumed
  }

  lemma StoppedStep(s: State, step: Step)
    requires Indexed(s) && !s.store.running && Enabled(s, step)
    ensures !Do(s, step).store.running && SameConsumed(s, Do(s, step))
    ensures !step.BeginPublish? && !step.BeginConsume?
  {
  }

  lemma {:induction false} StoppedRun(s: State, run: seq<Step>)
    requires Inv(s) && !s.store.running && Legal(s, run)
    ensures !Exec(s, run).store.running && SameConsumed(s, Exec(s, run))
    ensures forall i | 0 <= i < |run| :: !run[i].BeginPublish? && !run[i].BeginConsume?
    decreases |run|
  {
    if run != [] {
      StoppedStep(s, run[0]);
      StepKeepsInv(s, run[0]);
      StoppedRun(Do(s, run[0]), run[1..]);
    }
  }

  /** The broker can be stopped at any time. From then on no call gets past its first test, and no
      consumer, waiting or not, is handed a message; a publication already past that test may still
      be accepted, and is never delivered. */
  lemma StopIsFinal(s: State, run: seq<Step>)
    requires Inv(s)
    ensures Enabled(s, Stop)
    ensures Legal(Do(s, Stop), run) ==>
      && SameConsumed(s, Exec(Do(s, Stop), run))
      && forall i | 0 <= i < |run| :: !run[i].BeginPublish? && !run[i].BeginConsume?
  {
    StepKeepsInv(s, Stop);
    assert Do(s, Stop).periods == s.periods && !Do(s, Stop).store.running;
    if Legal(Do(s, Stop), run) {
      StoppedRun(Do(s, Stop), run);
    }
  }

  // ---- References across the wait ----

  predicate WaitsOn(s: State, t: Tid, topic: Topic) {
    t < |s.threads| && s.threads[t].Waiting? && s.threads[t].topic == topic
  }

  /** Every waiting consumer's reference is to a living queue, and no dead one was ever used. */
  ghost predicate Sound(s: State) {
    !s.corrupt && forall t | 0 <= t < |s.threads| && s.threads[t].Waiting? :: s.threads[t].queue in s.store.queues
  }

  /** `unsubscribe` destroys the queue under the feet of a consumer exactly if one is waiting on
      that topic; then the next thing that consumer does uses the dead reference. */
  lemma UnsubscribeSoundIff(s: State, topic: Topic)
    requires Inv(s) && Sound(s) && Enabled(s, Unsubscribe(topic))
    ensures var d := Do(s, Unsubscribe(topic));
      Sound(d) <==> forall t | 0 <= t < |s.threads| :: !WaitsOn(s, t, topic)
    ensures forall t | 0 <= t < |s.threads| && WaitsOn(s, t, topic) ::
      var d := Do(s, Unsubscribe(topic));
      Recorded(d) && Enabled(d, Resume(t)) && Do(d, Resume(t)).corrupt
  {
    var d := Do(s, Unsubscribe(topic));
    IndexedStep(s, Unsubscribe(topic));
    forall t | 0 <= t < |s.threads| && s.threads[t].Waiting?
      ensures s.threads[t].queue in d.store.queues <==> !WaitsOn(s, t, topic)
    {
      var q := s.threads[t].queue;
      assert s.store.index[s.periods[q].topic] == q;
    }
    if t :| 0 <= t < |s.threads| && WaitsOn(s, t, topic) {
      assert d.threads[t].Waiting? && d.threads[t].queue !in d.store.queues;
    }
  }

  /** A run of one step and then others. */
  lemma Before(s: State, step: Step, next: State, rest: seq<Step>) returns (run: seq<Step>)
    requires Recorded(s) && Enabled(s, step) && Do(s, step) == next && Legal(next, rest)
    ensures run == [step] + rest && Legal(s, run) && Exec(s, run) == Exec(next, rest)
  {
    run := [step] + rest;
    assert run[1..] == rest;
  }

  /** Such a run: a consumer waits, its topic is unsubscribed, and it uses the destroyed queue. */
  lemma DeadReferenceHappens(topic: Topic) returns (run: seq<Step>)
    requires topic != ""
    ensures run == [Subscribe(topic), BeginConsume(0, topic), Consume(0), Unsubscribe(topic), Resume(0)]
    ensures Legal(Init(1), run) && Exec(Init(1), run).corrupt
  {
    var index, queues, periods := map[topic := 0], map[0 := []], map[0 := Period(topic, [], [])];
    var s0 := Init(1);
    assert s0.threads == [Outside];
    var s1 := State(Store(index, queues, 1, true), [Outside], periods, false);
    var s2 := s1.(threads := [Consuming(topic)]);
    var s3 := s1.(threads := [Waiting(topic, 0)]);
    var s4 := s3.(store := Store(map[], map[], 1, true));
    var s5 := s4.(threads := [Outside], corrupt := true);
    run := Before(s4, Resume(0), s5, []);
    assert Unsubscribed(s3.store, topic) == s4.store;
    run := Before(s3, Unsubscribe(topic), s4, run);
    run := Before(s2, Consume(0), s3, run);
    run := Before(s1, BeginConsume(0, topic), s2, run);
    assert Subscribed(s0.store, topic) == s1.store;
    run := Before(s0, Subscribe(topic), s1, run);
  }

  predicate Careful(s: State, step: Step) {
    step.Unsubscribe? ==> forall t | 0 <= t < |s.threads| :: !WaitsOn(s, t, step.topic)
  }

  predicate CarefulRun(s: State, run: seq<Step>)
    requires Legal(s, run)
    decreases |run|
  {
    run == [] || (Careful(s, run[0]) && CarefulRun(Do(s, run[0]), run[1..]))
  }

  lemma OtherStepSound(s: State, step: Step)
    requires Inv(s) && Sound(s) && Enabled(s, step) && !step.Unsubscribe?
    ensures Sound(Do(s, step))
  {
  }

  /** In runs without such an unsubscribe no dead reference is ever used. */
  lemma {:induction false} CarefulRunsAreSound(s: State, run: seq<Step>)
    requires Inv(s) && Sound(s) && Legal(s, run) && CarefulRun(s, run)
    ensures Sound(Exec(s, run))
    decreases |run|
  {
    if run != [] {
      if run[0].Unsubscribe? {
        UnsubscribeSoundIff(s, run[0].topic);
      } else {
        OtherStepSound(s, run[0]);
      }
      StepKeepsInv(s, run[0]);
      CarefulRunsAreSound(Do(s, run[0]), run[1..]);
    }
  }
}
