/** The broker object. Each method is one critical section of the model and is proved against the
    update of the store the model uses for it. */
module BrokerObject {
  import opened Results
  import opened MessageBroker

  /** What the first half of `consume` comes to: an answer, or a wait on a queue. */
  datatype Consumption = Answer(r: Result<Option<Message>>) | Wait(queue: QueueId)

  class InMemoryMessageBroker {
    var index: map<Topic, QueueId>
    var queues: map<QueueId, seq<Message>>
    var next: QueueId
    var running: bool

    function View(): Store
      reads this
    {
      Store(index, queues, next, running)
    }

    /** Every topic has a queue of its own, and new queues get new numbers. */
    ghost predicate Valid()
      reads this
    {
      && (forall topic | topic in index :: index[topic] in queues)
      && (forall a, b | a in index && b in index && a != b :: index[a] != index[b])
      && (forall q | q in queues :: q < next)
    }

    /** The messages waiting for a topic, or nothing if it is not subscribed. */
    ghost function Pending(topic: Topic): Option<seq<Message>>
      requires Valid()
      reads this
    {
      if topic in index then Some(queues[index[topic]]) else None
    }

    constructor ()
      ensures Valid() && View() == Init(0).store
    {
      index, queues, next, running := map[], map[], 0, true;
    }

    method Publish(msg: Message, id: string, now: int) returns (r: Result<()>)
      requires Valid()
      modifies this
      ensures Valid()
      ensures !old(running) ==> r == Err(Internal)
      ensures old(running) && msg.topic !in old(index) ==> r == Err(NotFound)
      ensures r.Err? ==> View() == old(View())
      ensures old(running) && msg.topic in old(index) ==>
        && r.Ok? && View() == Pushed(old(View()), Enriched(msg, id, now))
        && Pending(msg.topic) == Some(old(Pending(msg.topic)).value + [Enriched(msg, id, now)])
      ensures forall topic | topic != msg.topic :: Pending(topic) == old(Pending(topic))
    {
      if !running {
        return Err(Internal);
      }
      if msg.topic !in index {
        return Err(NotFound);
      }
      var enriched := msg;
      if enriched.id == "" {
        enriched := enriched.(id := id);
      }
      if enriched.timestamp == 0 {
        enriched := enriched.(timestamp := now);
      }
      var q := index[msg.topic];
      queues := queues[q := queues[q] + [enriched]];
      return Ok(());
    }

    /** `consume` up to the point where it returns or starts to wait. */
    method ConsumeStart(topic: Topic) returns (c: Consumption)
      requires Valid()
      modifies this
      ensures Valid()
      ensures !old(running) ==> c == Answer(Err(Internal)) && View() == old(View())
      ensures old(running) && topic !in old(index) ==> c == Answer(Err(NotFound)) && View() == old(View())
      ensures old(running) && topic in old(index) && old(Pending(topic)) == Some([]) ==>
        c == Wait(old(index)[topic]) && View() == old(View())
      ensures old(running) && topic in old(index) && old(Pending(topic)) != Some([]) ==>
        && c == Answer(Ok(Some(old(Pending(topic)).value[0])))
        && View() == PoppedFrom(old(View()), old(index)[topic])
        && Pending(topic) == Some(old(Pending(topic)).value[1..])
      ensures forall other | other != topic :: Pending(other) == old(Pending(other))
    {
      if !running {
        return Answer(Err(Internal));
      }
      if topic !in index {
        return Answer(Err(NotFound));
      }
      var q := index[topic];
      if queues[q] == [] {
        return Wait(q);
      }
      var r := ConsumeEnd(q);
      return Answer(r);
    }

    /** `consume` after the wait, on the queue it still refers to, which must be alive. */
    method ConsumeEnd(q: QueueId) returns (r: Result<Option<Message>>)
      requires Valid() && q in queues
      modifies this
      ensures Valid()
      ensures !old(running) || old(queues)[q] == [] ==> r == Ok(None) && View() == old(View())
      ensures old(running) && old(queues)[q] != [] ==>
        r == Ok(Some(old(queues)[q][0])) && View() == PoppedFrom(old(View()), q)
    {
      if !running {
        return Ok(None);
      }
      if queues[q] == [] {
        return Ok(None);
      }
      var msg := queues[q][0];
      queues := queues[q := queues[q][1..]];
      return Ok(Some(msg));
    }

    method Subscribe(topic: Topic) returns (r: Result<()>)
      requires Valid()
      modifies this
      ensures Valid()
      ensures topic == "" ==> r == Err(Validation)
      ensures topic != "" && topic in old(index) ==> r == Err(Conflict)
      ensures r.Err? ==> View() == old(View())
      ensures topic != "" && topic !in old(index) ==>
        r.Ok? && View() == Subscribed(old(View()), topic) && Pending(topic) == Some([])
      ensures forall other | other != topic :: Pending(other) == old(Pending(other))
    {
      if topic == "" {
        return Err(Validation);
      }
      if topic in index {
        return Err(Conflict);
      }
      index, queues, next := index[topic := next], queues[next := []], next + 1;
      return Ok(());
    }

    method Unsubscribe(topic: Topic) returns (r: Result<()>)
      requires Valid()
      modifies this
      ensures Valid()
      ensures topic !in old(index) ==> r == Err(NotFound) && View() == old(View())
      ensures topic in old(index) ==> r.Ok? && View() == Unsubscribed(old(View()), topic) && Pending(topic) == None
      ensures forall other | other != topic :: Pending(other) == old(Pending(other))
    {
      if topic !in index {
        return Err(NotFound);
      }
      var q := index[topic];
      index, queues := index - {topic}, queues - {q};
      return Ok(());
    }

    method PendingCount(topic: Topic) returns (r: Result<nat>)
      requires Valid()
      ensures r == if Pending(topic).None? then Err(NotFound) else Ok(|Pending(topic).value|)
    {
      if topic !in index {
        return Err(NotFound);
      }
      return Ok(|queues[index[topic]]|);
    }
  }
}
