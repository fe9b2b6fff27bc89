/**
 The producer base class and the registration state all its instances share.

 The class-level set of existing topics becomes a `Registrar` object that the
 application creates once and hands by reference to every `Producer`; the
 administrative client's create-topics call becomes an append to the
 registrar's request log.
 */
module Producers {
  import opened TopicRegistration

  datatype Option<T> = None | Some(value: T)

  /** A message schema, represented by its definition text. */
  datatype Schema = Schema(definition: string)

  /** The set of topics known to exist, shared by all producers, and the create-topic requests sent so far. */
  class Registrar {
    var existing: set<string>
    var requests: seq<NewTopic>

    /** The registration state as a value. */
    function State(): (r: Registry)
      reads this
    {
      Registry(existing, requests)
    }

    /** The invariant every sequence of producer constructions keeps. */
    ghost predicate Valid()
      reads this
    {
      TopicRegistration.Valid(State())
    }

    /** At process start no topic is known and no request has been sent. */
    constructor ()
      ensures existing == {} && requests == []
      ensures Valid()
    {
      existing := {};
      requests := [];
      EmptyValid();
    }

    /** Registers `name`; no request is sent. */
    method Add(name: string)
      modifies this
      ensures existing == old(existing) + {name}
      ensures requests == old(requests)
    {
      existing := existing + {name};
    }

    /** Sends one create-topic request to the broker; its outcome is not observed. */
    method CreateTopics(t: NewTopic)
      modifies this
      ensures requests == old(requests) + [t]
      ensures existing == old(existing)
    {
      requests := requests + [t];
    }
  }

  /** A handle bound to one topic and its schemas, sharing the process's registrar. */
  class Producer {
    const registrar: Registrar
    var topicName: string
    var keySchema: Schema
    var valueSchema: Option<Schema>
    var numPartitions: int
    var numReplicas: int

    /**
     Stores the configuration as given, then registers the topic: a topic not yet
     registered gets one create-topic request carrying this producer's partition
     and replica counts and is then registered; a registered topic changes nothing.
     */
    constructor (registrar: Registrar, topicName: string, keySchema: Schema,
                 valueSchema: Option<Schema> := None, numPartitions: int := 1, numReplicas: int := 1)
      modifies registrar
      ensures this.registrar == registrar
      ensures this.topicName == topicName && this.keySchema == keySchema && this.valueSchema == valueSchema
      ensures this.numPartitions == numPartitions && this.numReplicas == numReplicas
      ensures topicName in registrar.existing
      ensures old(registrar.existing) <= registrar.existing <= old(registrar.existing) + {topicName}
      ensures topicName in old(registrar.existing) ==> registrar.requests == old(registrar.requests)
      ensures topicName !in old(registrar.existing) ==>
        registrar.requests == old(registrar.requests) + [NewTopic(topicName, numPartitions, numReplicas)]
      ensures registrar.State() == Register(old(registrar.State()), NewTopic(topicName, numPartitions, numReplicas))
      ensures old(registrar.Valid()) ==> registrar.Valid()
    {
      this.registrar := registrar;
      this.topicName := topicName;
      this.keySchema := keySchema;
      this.valueSchema := valueSchema;
      this.numPartitions := numPartitions;
      this.numReplicas := numReplicas;
      new;
      ghost var before := registrar.State();
      if topicName !in registrar.existing {
        CreateTopic();
        registrar.Add(topicName);
      }
      if TopicRegistration.Valid(before) {
        RegisterCounts(before, NewTopic(topicName, numPartitions, numReplicas));
      }
    }

    /** Asks the broker to create this producer's topic with its partition and replica counts. */
    method CreateTopic()
      modifies registrar
      ensures registrar.requests == old(registrar.requests) + [NewTopic(topicName, numPartitions, numReplicas)]
      ensures registrar.existing == old(registrar.existing)
    {
      registrar.CreateTopics(NewTopic(topicName, numPartitions, numReplicas));
    }
  }

  /**
   Two producers for one topic, constructed one after the other on the same
   registrar, the first with default counts and the second with its own: the
   topic ends with exactly one create-topic request, the first producer's if the
   topic was new, and the second producer's counts are never sent.
   */
  method ConstructTwice(registrar: Registrar, topicName: string, keySchema: Schema,
                        valueSchema: Option<Schema>, numPartitions: int, numReplicas: int)
      returns (first: Producer, second: Producer)
    requires registrar.Valid()
    modifies registrar
    ensures registrar.Valid()
    ensures CountFor(registrar.requests, topicName) == 1
    ensures registrar.existing == old(registrar.existing) + {topicName}
    ensures topicName in old(registrar.existing) ==> registrar.requests == old(registrar.requests)
    ensures topicName !in old(registrar.existing) ==>
      registrar.requests == old(registrar.requests) + [NewTopic(topicName, 1, 1)]
  {
    first := new Producer(registrar, topicName, keySchema);
    ghost var middle := registrar.State();
    second := new Producer(registrar, topicName, keySchema, valueSchema, numPartitions, numReplicas);
    RegisterCounts(middle, NewTopic(topicName, numPartitions, numReplicas));
  }

  /**
   A producer constructed without partition or replica counts on a fresh
   registrar requests its topic with one partition and one replica.
   */
  method ConstructWithDefaults(topicName: string, keySchema: Schema)
      returns (registrar: Registrar, p: Producer)
    ensures p.registrar == registrar
    ensures p.numPartitions == 1 && p.numReplicas == 1 && p.valueSchema == None
    ensures registrar.existing == {topicName}
    ensures registrar.requests == [NewTopic(topicName, 1, 1)]
  {
    registrar := new Registrar();
    p := new Producer(registrar, topicName, keySchema);
  }
}
