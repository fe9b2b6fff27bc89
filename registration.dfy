/**
 The process-wide topic registration behind every producer, as values.

 A `Registry` pairs the set of topic names already known to exist with the log
 of create-topic requests sent to the broker's administrative client. `Register`
 is one producer construction's check-then-add; `RunAll` is a whole sequence of
 constructions that share one registry.
 */
module TopicRegistration {

  /** One create-topic request: the topic name, its partition count and its replication factor. */
  datatype NewTopic = NewTopic(topic: string, numPartitions: int, replicationFactor: int)

  /** The shared registration set and the log of create-topic requests issued so far. */
  datatype Registry = Registry(existing: set<string>, requests: seq<NewTopic>)

  /** The state at process start: nothing registered, nothing requested. */
  const Empty: Registry := Registry({}, [])

  /** The number of create-topic requests in `reqs` that name `name`. */
  function CountFor(reqs: seq<NewTopic>, name: string): (n: nat)
  {
    if reqs == [] then 0
    else (if reqs[0].topic == name then 1 else 0) + CountFor(reqs[1..], name)
  }

  /** Every registered name was requested exactly once, and no other name was requested. */
  ghost predicate Valid(r: Registry)
  {
    forall name :: CountFor(r.requests, name) == if name in r.existing then 1 else 0
  }

  /**
   One producer construction: a topic not yet registered gets one create-topic
   request and is then registered, whatever its returned futures report; a topic
   already registered changes nothing.
   */
  function Register(r: Registry, t: NewTopic): (r': Registry)
    ensures t.topic in r'.existing
    ensures r.existing <= r'.existing <= r.existing + {t.topic}
    ensures |r'.requests| == |r.requests| + (if t.topic in r.existing then 0 else 1)
    ensures r'.requests[..|r.requests|] == r.requests
    ensures t.topic !in r.existing ==> r'.requests[|r.requests|] == t
  {
    if t.topic in r.existing then r
    else Registry(r.existing + {t.topic}, r.requests + [t])
  }

  /** A sequence of producer constructions, in order, sharing one registry. */
  function RunAll(r: Registry, ts: seq<NewTopic>): (r': Registry)
    decreases |ts|
  {
    if ts == [] then r else RunAll(Register(r, ts[0]), ts[1..])
  }

  /** The topic names of a sequence of constructions. */
  function Topics(ts: seq<NewTopic>): (names: set<string>)
  {
    set i | 0 <= i < |ts| :: ts[i].topic
  }

  /** Appending a request adds one to its own name's count and nothing to any other. */
  lemma {:induction false} CountForAppend(reqs: seq<NewTopic>, t: NewTopic, name: string)
    ensures CountFor(reqs + [t], name) == CountFor(reqs, name) + (if t.topic == name then 1 else 0)
  {
    if reqs == [] {
      assert [] + [t] == [t];
    } else {
      assert (reqs + [t])[1..] == reqs[1..] + [t];
      CountForAppend(reqs[1..], t, name);
    }
  }

  /** At process start the invariant holds. */
  lemma EmptyValid()
    ensures Valid(Empty)
  {
  }

  /**
   One construction keeps the invariant, ends with exactly one request for its
   topic, and leaves the request count of every other name as it was.
   */
  lemma RegisterCounts(r: Registry, t: NewTopic)
    requires Valid(r)
    ensures Valid(Register(r, t))
    ensures CountFor(Register(r, t).requests, t.topic) == 1
    ensures forall name :: name != t.topic ==>
      CountFor(Register(r, t).requests, name) == CountFor(r.requests, name)
  {
    if t.topic !in r.existing {
      forall name ensures CountFor(r.requests + [t], name) == CountFor(r.requests, name) + (if t.topic == name then 1 else 0) {
        CountForAppend(r.requests, t, name);
      }
    }
  }

  /** Constructing a second producer for a topic just registered issues nothing and changes nothing. */
  lemma RegisterIdempotent(r: Registry, t: NewTopic, u: NewTopic)
    requires u.topic == t.topic
    ensures Register(Register(r, t), u) == Register(r, t)
  {
  }

  /** Two constructions for one topic, in sequence, leave exactly one request for it. */
  lemma TwoConstructionsOneRequest(t: NewTopic, u: NewTopic)
    requires u.topic == t.topic
    ensures Register(Register(Empty, t), u).requests == [t]
  {
  }

  /** Running `a` and then `b` is running `a + b`. */
  lemma {:induction false} RunAllAppend(r: Registry, a: seq<NewTopic>, b: seq<NewTopic>)
    ensures RunAll(r, a + b) == RunAll(RunAll(r, a), b)
    decreases |a|
  {
    if a == [] {
      assert a + b == b;
    } else {
      assert (a + b)[0] == a[0];
      assert (a + b)[1..] == a[1..] + b;
      RunAllAppend(Register(r, a[0]), a[1..], b);
    }
  }

  /** The names of a non-empty sequence are its first name and the names of the rest. */
  lemma TopicsUncons(ts: seq<NewTopic>)
    requires ts != []
    ensures Topics(ts) == {ts[0].topic} + Topics(ts[1..])
  {
    forall name | name in Topics(ts) ensures name in {ts[0].topic} + Topics(ts[1..]) {
      var i :| 0 <= i < |ts| && ts[i].topic == name;
      if i > 0 {
        assert ts[1..][i - 1].topic == name;
      }
    }
    forall name | name in Topics(ts[1..]) ensures name in Topics(ts) {
      var i :| 0 <= i < |ts[1..]| && ts[1..][i].topic == name;
      assert ts[i + 1].topic == name;
    }
  }

  /**
   A sequence of constructions registers exactly the names registered before
   together with the names it constructs: nothing is removed, nothing else is added.
   */
  lemma {:induction false} RunAllExisting(r: Registry, ts: seq<NewTopic>)
    ensures RunAll(r, ts).existing == r.existing + Topics(ts)
    decreases |ts|
  {
    if ts != [] {
      RunAllExisting(Register(r, ts[0]), ts[1..]);
      TopicsUncons(ts);
    }
  }

  /** Any sequence of constructions keeps the invariant. */
  lemma {:induction false} RunAllValid(r: Registry, ts: seq<NewTopic>)
    requires Valid(r)
    ensures Valid(RunAll(r, ts))
    decreases |ts|
  {
    if ts != [] {
      RegisterCounts(r, ts[0]);
      RunAllValid(Register(r, ts[0]), ts[1..]);
    }
  }

  /**
   From process start, a topic gets exactly one create-topic request if some
   producer was constructed for it, and none otherwise.
   */
  lemma AtMostOneRequestPerTopic(ts: seq<NewTopic>, name: string)
    ensures CountFor(RunAll(Empty, ts).requests, name) == if name in Topics(ts) then 1 else 0
  {
    EmptyValid();
    RunAllValid(Empty, ts);
    RunAllExisting(Empty, ts);
  }

  /** Later constructions never remove a request already issued. */
  lemma {:induction false} RunAllKeepsRequests(r: Registry, ts: seq<NewTopic>)
    ensures |r.requests| <= |RunAll(r, ts).requests|
    ensures RunAll(r, ts).requests[..|r.requests|] == r.requests
    decreases |ts|
  {
    if ts != [] {
      var r1 := Register(r, ts[0]);
      RunAllKeepsRequests(r1, ts[1..]);
      var full := RunAll(r1, ts[1..]).requests;
      assert full[..|r.requests|] == full[..|r1.requests|][..|r.requests|];
    }
  }

  /** The first construction for a new topic leaves its request in the log for good. */
  lemma {:induction false} FirstRequestLogged(r: Registry, ts: seq<NewTopic>, i: nat)
    requires i < |ts| && ts[i].topic !in r.existing
    requires forall j :: 0 <= j < i ==> ts[j].topic != ts[i].topic
    ensures ts[i] in RunAll(r, ts).requests
    decreases |ts|
  {
    var r1 := Register(r, ts[0]);
    if i == 0 {
      RunAllKeepsRequests(r1, ts[1..]);
      var full := RunAll(r1, ts[1..]).requests;
      assert full[|r.requests|] == full[..|r1.requests|][|r.requests|];
    } else {
      assert ts[1..][i - 1] == ts[i];
      FirstRequestLogged(r1, ts[1..], i - 1);
    }
  }

  /** A name with no request in the log names none of its entries. */
  lemma {:induction false} CountForZero(reqs: seq<NewTopic>, name: string)
    requires CountFor(reqs, name) == 0
    ensures forall k :: 0 <= k < |reqs| ==> reqs[k].topic != name
    decreases |reqs|
  {
    if reqs != [] {
      CountForZero(reqs[1..], name);
      forall k | 0 < k < |reqs| ensures reqs[k].topic != name {
        assert reqs[k] == reqs[1..][k - 1];
      }
    }
  }

  /** A name with exactly one request in the log names exactly one entry. */
  lemma {:induction false} CountForOne(reqs: seq<NewTopic>, name: string, j: nat, k: nat)
    requires CountFor(reqs, name) == 1
    requires j < |reqs| && k < |reqs| && reqs[j].topic == name && reqs[k].topic == name
    ensures j == k
    decreases |reqs|
  {
    if reqs[0].topic == name {
      CountForZero(reqs[1..], name);
    } else {
      assert reqs[1..][j - 1] == reqs[j] && reqs[1..][k - 1] == reqs[k];
      CountForOne(reqs[1..], name, j - 1, k - 1);
    }
  }

  /**
   The single request for a new topic is that of the first producer constructed
   for it, with its partition count and replication factor; later producers for
   that topic cannot change them.
   */
  lemma FirstConstructionWins(r: Registry, ts: seq<NewTopic>, i: nat)
    requires Valid(r)
    requires i < |ts| && ts[i].topic !in r.existing
    requires forall j :: 0 <= j < i ==> ts[j].topic != ts[i].topic
    ensures ts[i] in RunAll(r, ts).requests
    ensures forall q :: q in RunAll(r, ts).requests && q.topic == ts[i].topic ==> q == ts[i]
  {
    var full := RunAll(r, ts).requests;
    FirstRequestLogged(r, ts, i);
    RunAllValid(r, ts);
    RunAllExisting(r, ts);
    assert ts[i].topic in Topics(ts);
    var j :| 0 <= j < |full| && full[j] == ts[i];
    forall q | q in full && q.topic == ts[i].topic ensures q == ts[i] {
      var k :| 0 <= k < |full| && full[k] == q;
      CountForOne(full, ts[i].topic, j, k);
    }
  }

  /** Constructing only producers for registered topics issues nothing and changes nothing. */
  lemma {:induction false} RunAllKnown(r: Registry, ts: seq<NewTopic>)
    requires Topics(ts) <= r.existing
    ensures RunAll(r, ts) == r
    decreases |ts|
  {
    if ts != [] {
      TopicsUncons(ts);
      RunAllKnown(r, ts[1..]);
    }
  }

  /** Constructing the same producers a second time issues no further request. */
  lemma RunAllTwice(r: Registry, ts: seq<NewTopic>)
    ensures RunAll(r, ts + ts) == RunAll(r, ts)
  {
    RunAllAppend(r, ts, ts);
    RunAllExisting(r, ts);
    RunAllKnown(RunAll(r, ts), ts);
  }
}
