# Topic registration of the transit producers

This is a model of the producer base class in `producers/models/producer.py`. Every
producer in the process shares one set of topics that are already known to exist.
When a producer is constructed, it first stores its configuration: topic name, key
schema, optional value schema, partition count and replica count. The last two
default to 1. It then checks the shared set. A new topic gets one create-topic
request to the broker's administrative client, and the name is then added to the set
whatever the request's returned futures report. A topic that is already known costs nothing.

There are two modules:

- `TopicRegistration` (`registration.dfy`) treats the registration state as a value.
  `NewTopic` is one create-topic request. `Registry` holds the shared set and the log
  of requests sent. `Register` is one construction's check-then-add. `RunAll` is a
  sequence of constructions that share one registry. `Valid` is the invariant: every
  registered name was requested exactly once, and no other name was requested. The
  lemmas prove the "one request per topic" guarantee on top of these definitions.
- `Producers` (`producer.dfy`) gives the imperative form. `Registrar` is a class whose
  fields change in place: the set of existing topics and the request log. It stands in
  for the class attribute `Producer.existing_topics`. The application creates it once
  and passes it by reference to every producer. The `Producer` constructor stores its
  fields and performs the check-then-add on that shared registrar. Its contract ties
  the registrar's new state to `Register` of the old state.

Points about the code's behaviour that shape the model:

- The constructor validates nothing. An empty topic name, or a partition or replica
  count below 1, is accepted and forwarded as given. So the constructor has no
  precondition and the counts are plain `int`.
- Registration does not wait for the futures that `create_topics` returns. Once the
  request has been handed to the administrative client, the name is registered.
- The one-request-per-topic guarantee (`Valid`) holds for a registrar that only
  producer constructions have touched. `create_topic` is public
  (producers/models/producer.py:64), and `Producer.CreateTopic` models it faithfully:
  calling it directly on a producer whose topic is registered sends a second request
  for that name. The guarantee assumes `create_topic` is called only from the
  constructor.

## Model

| member | source | states |
|---|---|---|
| `TopicRegistration.Register` | producers/models/producer.py:56-59 | after construction the topic is registered; the set only grows, and only by that topic; at most one request is added and earlier requests are kept; a new topic's request is exactly the producer's (name, partitions, replicas) |
| `TopicRegistration.EmptyValid` | producers/models/producer.py:20 | the empty set at process start satisfies the one-request-per-registered-topic invariant |
| `TopicRegistration.RegisterCounts` | producers/models/producer.py:57-59 | one construction keeps the invariant, leaves exactly one request for its topic, and leaves every other name's request count unchanged |
| `TopicRegistration.RegisterIdempotent` | producers/models/producer.py:57 | constructing a producer for a topic that was just registered changes nothing, whatever its counts |
| `TopicRegistration.TwoConstructionsOneRequest` | producers/models/producer.py:57-59 | from process start, two constructions for one topic leave exactly one request, the first producer's |
| `TopicRegistration.RunAllExisting` | producers/models/producer.py:59 | after any sequence of constructions, the set is the old set plus exactly the constructed topics: nothing removed, nothing else added |
| `TopicRegistration.RunAllValid` | producers/models/producer.py:19-20 | any sequence of constructions that share the set keeps the invariant |
| `TopicRegistration.AtMostOneRequestPerTopic` | producers/models/producer.py:57-59 | from process start, a name has exactly one create-topic request if some producer was constructed for it, and none otherwise |
| `TopicRegistration.RunAllKeepsRequests` | producers/models/producer.py:64-68 | later constructions never withdraw or reorder a request already sent |
| `TopicRegistration.FirstConstructionWins` | producers/models/producer.py:57-68 | on a valid registry, the first producer constructed for a new topic has its request in the log, with its partition and replica counts, and every request in the log for that topic is that one, so later producers cannot change the counts |
| `TopicRegistration.RunAllKnown` | producers/models/producer.py:57 | constructions that only name registered topics send nothing and change nothing |
| `TopicRegistration.RunAllTwice` | producers/models/producer.py:57-59 | constructing the same producers a second time sends no further request |
| `Producers.Registrar.constructor` | producers/models/producer.py:20 | the shared set starts empty, with no requests sent, and satisfies the invariant |
| `Producers.Registrar.Add` | producers/models/producer.py:59 | adds exactly the name to the set and sends no request |
| `Producers.Registrar.CreateTopics` | producers/models/producer.py:68 | appends exactly one request to the log and leaves the set unchanged |
| `Producers.Producer.constructor` | producers/models/producer.py:22-59 | stores all five configuration fields as given; the topic is then registered; a known topic sends nothing; a new topic sends one request with the producer's counts; the new registrar state is `Register` of the old one, and the invariant is kept |
| `Producers.Producer.CreateTopic` | producers/models/producer.py:64-69 | sends one create-topic request naming this producer's topic, partition count and replica count, and leaves the set unchanged |
| `Producers.ConstructTwice` | producers/models/producer.py:19-20 | two producers for one topic on a shared registrar leave exactly one request for it; the second producer's different counts are never sent |
| `Producers.ConstructWithDefaults` | producers/models/producer.py:27-28 | a producer built without counts has one partition, one replica and no value schema, and requests its topic with 1 and 1 |

## Left out

- The Avro producer, the schema-registry client, and creating the administrative client (producers/models/producer.py:43-54, 67). These are calls into the Kafka client library. The schema is kept only as its definition text.
- The outcome of `create_topics`. Its returned futures are ignored, so the model records the request and registers the name regardless.
- Exceptions from the client library. An exception from the Avro producer or schema-registry setup (producers/models/producer.py:49-54) ends construction before the check at line 57. An exception from creating the administrative client or from `create_topics` (lines 67-68) skips line 59, so the name stays unregistered and the next producer for it sends another request. The model's constructor always returns and always registers the topic; it has no such abort path.
- `close` and its `flush` (producers/models/producer.py:74-77). This is blocking broker I/O with no logic of its own.
- `time_millis` (producers/models/producer.py:71-72, redefined at 79-81). It reads the wall clock and uses floating-point rounding.
- The broker and registry URL constants and the `broker_properties` dictionary. They are configuration only.
- Logging.
- Concurrent construction. The source has no lock around the check-then-add, so only the sequential behaviour is modelled. Under concurrency, two constructions could both miss the name and both send a request.
