/** Values shared by the one-shot dispatch and the auto-update loop of the
    `s3-sink` command: optional oracle results, the calls the command makes on
    its collaborators, and the set view of a topic list. */
module Optional {

  /** A value that may be missing; used for oracle results that can fail to parse. */
  datatype Option<+T> = None | Some(value: T)
}

module Calls {

  /** A call the command makes on a collaborator. `Discover` asks the Kafka
      broker for the topic names; `Validate` and `CreateOrUpdate` are requests
      to the Connect REST API and carry the topic list embedded in the
      connector configuration they send. */
  datatype Action =
    | Discover
    | Validate(topics: seq<string>)
    | CreateOrUpdate(topics: seq<string>)

  /** The topic lists of the `CreateOrUpdate` calls of a trace, in call order. */
  function Upserts(trace: seq<Action>): (r: seq<seq<string>>)
    ensures |r| <= |trace|
    ensures forall ts :: ts in r <==> CreateOrUpdate(ts) in trace
  {
    if |trace| == 0 then []
    else
      assert trace == [trace[0]] + trace[1..];
      (if trace[0].CreateOrUpdate? then [trace[0].topics] else []) + Upserts(trace[1..])
  }

  /** The topic lists of the `Validate` calls of a trace, in call order. */
  function Validations(trace: seq<Action>): (r: seq<seq<string>>)
    ensures |r| <= |trace|
    ensures forall ts :: ts in r <==> Validate(ts) in trace
  {
    if |trace| == 0 then []
    else
      assert trace == [trace[0]] + trace[1..];
      (if trace[0].Validate? then [trace[0].topics] else []) + Validations(trace[1..])
  }

  /** How many times a trace asks the broker for topic names. */
  function Discoveries(trace: seq<Action>): (n: nat)
    ensures n <= |trace|
    ensures n == 0 <==> Discover !in trace
  {
    if |trace| == 0 then 0
    else
      assert trace == [trace[0]] + trace[1..];
      (if trace[0].Discover? then 1 else 0) + Discoveries(trace[1..])
  }

  /** The last element of `xs`, or `d` when there is none. */
  function LastOr(xs: seq<seq<string>>, d: seq<string>): seq<string>
  {
    if |xs| == 0 then d else xs[|xs| - 1]
  }

  /** Projecting a concatenated trace projects each part. */
  lemma {:induction false} UpsertsAppend(a: seq<Action>, b: seq<Action>)
    ensures Upserts(a + b) == Upserts(a) + Upserts(b)
  {
    if |a| == 0 {
      assert a + b == b;
    } else {
      assert (a + b)[0] == a[0];
      assert (a + b)[1..] == a[1..] + b;
      UpsertsAppend(a[1..], b);
    }
  }

  lemma {:induction false} ValidationsAppend(a: seq<Action>, b: seq<Action>)
    ensures Validations(a + b) == Validations(a) + Validations(b)
  {
    if |a| == 0 {
      assert a + b == b;
    } else {
      assert (a + b)[0] == a[0];
      assert (a + b)[1..] == a[1..] + b;
      ValidationsAppend(a[1..], b);
    }
  }

  lemma {:induction false} DiscoveriesAppend(a: seq<Action>, b: seq<Action>)
    ensures Discoveries(a + b) == Discoveries(a) + Discoveries(b)
  {
    if |a| == 0 {
      assert a + b == b;
    } else {
      assert (a + b)[0] == a[0];
      assert (a + b)[1..] == a[1..] + b;
      DiscoveriesAppend(a[1..], b);
    }
  }
}

module TopicSets {

  /** The topic names a list holds, order and repetition forgotten
      (Python's `set(topics)`). */
  function Elements(ts: seq<string>): set<string>
  {
    set t | t in ts
  }

  /** `set(current) - set(topics)`: the discovered names the connector does
      not export yet. */
  function NewTopics(current: seq<string>, applied: seq<string>): set<string>
  {
    Elements(current) - Elements(applied)
  }

  /** Whether `current` names a topic `applied` lacks, by a scan of
      `current`; `HasNewTopicIff` shows it is the test for a non-empty
      `NewTopics`. */
  function HasNewTopic(current: seq<string>, applied: seq<string>): bool
  {
    if |current| == 0 then false
    else current[0] !in applied || HasNewTopic(current[1..], applied)
  }

  lemma {:induction false} HasNewTopicIff(current: seq<string>, applied: seq<string>)
    ensures HasNewTopic(current, applied) <==> NewTopics(current, applied) != {}
  {
    if |current| > 0 {
      HasNewTopicIff(current[1..], applied);
      assert current == [current[0]] + current[1..];
      assert Elements(current) == {current[0]} + Elements(current[1..]);
      if current[0] in applied {
        assert NewTopics(current, applied) == NewTopics(current[1..], applied);
      } else {
        assert current[0] in NewTopics(current, applied);
      }
    } else {
      assert Elements(current) == {};
    }
  }

  /** No new topic exactly when every discovered name is already exported:
      a shrinking or unchanged topology yields an empty difference. */
  lemma NoNewTopicsIffCovered(current: seq<string>, applied: seq<string>)
    ensures NewTopics(current, applied) == {} <==> Elements(current) <= Elements(applied)
    ensures NewTopics(current, applied) == {} <==> forall t :: t in current ==> t in applied
  {
    if NewTopics(current, applied) == {} {
      forall t | t in current
        ensures t in applied
      {
        assert t in Elements(current) && t !in NewTopics(current, applied);
        assert t in Elements(applied);
      }
    }
  }
}
