/** The auto-update loop of `create_s3_sink`: after each sleep, rediscover
    the topics and re-upload the connector configuration with the full
    discovered list when it names a topic the last upload did not. The state
    is the last applied topic list; the broker, the Connect API and keyboard
    interrupts are oracles consulted once per tick. */
module AutoUpdate {
  import opened Calls
  import opened TopicSets

  /** What `Topic(...).names` does on one tick. */
  datatype Discovery =
    | Found(names: seq<string>)
    | DiscoveryRaised        // an exception other than KeyboardInterrupt
    | DiscoveryInterrupted   // KeyboardInterrupt while discovering

  /** What `connect.create_or_update` does when it is called on a tick. */
  datatype Upsert =
    | Applied
    | UpsertRaised
    | UpsertInterrupted

  /** One iteration of `while True`: either the sleep is interrupted, or the
      loop wakes and meets the given discovery answer and (if it uploads)
      upload outcome. */
  datatype Tick =
    | InterruptedAsleep
    | Poll(discovery: Discovery, upsert: Upsert)

  /** Why the loop ended. A KeyboardInterrupt during the sleep is outside
      the `try` and escapes as is (`Aborted`); one inside it becomes the
      "Interruped." ClickException (`Interrupted`); any other exception of a
      collaborator propagates (`Raised`). Nothing is retried. */
  datatype Stop = Aborted | Interrupted | Raised

  /** `Running(topics)` holds the last applied topic list. */
  datatype LoopState = Running(topics: seq<string>) | Stopped(stop: Stop)

  datatype StepResult = StepResult(calls: seq<Action>, state: LoopState)

  /** True when a tick's discovery returned a list. */
  predicate Discovered(tick: Tick)
  {
    tick.Poll? && tick.discovery.Found?
  }

  /** One tick of the loop from last applied list `topics`. */
  function Step(topics: seq<string>, tick: Tick): StepResult
  {
    match tick
    case InterruptedAsleep => StepResult([], Stopped(Aborted))
    case Poll(discovery, upsert) =>
      match discovery
      case DiscoveryRaised => StepResult([Discover], Stopped(Raised))
      case DiscoveryInterrupted => StepResult([Discover], Stopped(Interrupted))
      case Found(current) =>
        if !HasNewTopic(current, topics) then
          StepResult([Discover], Running(topics))
        else
          var calls := [Discover, CreateOrUpdate(current)];
          match upsert
          case Applied => StepResult(calls, Running(current))
          case UpsertRaised => StepResult(calls, Stopped(Raised))
          case UpsertInterrupted => StepResult(calls, Stopped(Interrupted))
  }

  /** The calls one tick makes, stated through the set difference rather
      than the branches of `Step`: one discovery per wake-up, never a
      validation, and an upload exactly when a discovered name is not
      exported yet, carrying the full discovered list. */
  lemma StepCalls(topics: seq<string>, tick: Tick)
    ensures Discoveries(Step(topics, tick).calls) == (if tick.Poll? then 1 else 0)
    ensures Validations(Step(topics, tick).calls) == []
    ensures Upserts(Step(topics, tick).calls) ==
              (if Discovered(tick) && NewTopics(tick.discovery.names, topics) != {}
               then [tick.discovery.names] else [])
  {
    var calls := Step(topics, tick).calls;
    if Discovered(tick) {
      var current := tick.discovery.names;
      HasNewTopicIff(current, topics);
      if HasNewTopic(current, topics) {
        assert calls == [Discover] + [CreateOrUpdate(current)];
        UpsertsAppend([Discover], [CreateOrUpdate(current)]);
        ValidationsAppend([Discover], [CreateOrUpdate(current)]);
        DiscoveriesAppend([Discover], [CreateOrUpdate(current)]);
      } else {
        assert calls == [Discover];
      }
    } else if tick.Poll? {
      assert calls == [Discover];
    } else {
      assert calls == [];
    }
  }

  /** The state after one tick: the loop survives exactly when nothing
      raised; the state moves only to the uploaded list and only once the
      upload returned; afterwards every discovered name is exported. */
  lemma StepState(topics: seq<string>, tick: Tick)
    ensures Step(topics, tick).state.Running? <==>
              Discovered(tick)
              && (NewTopics(tick.discovery.names, topics) == {} || tick.upsert.Applied?)
    ensures Step(topics, tick).state.Running? ==>
              Step(topics, tick).state.topics == topics
              || (Step(topics, tick).state.topics == tick.discovery.names
                  && Upserts(Step(topics, tick).calls) == [tick.discovery.names]
                  && tick.upsert.Applied?)
    ensures Step(topics, tick).state.Running? ==>
              Elements(tick.discovery.names) <= Elements(Step(topics, tick).state.topics)
  {
    if Discovered(tick) {
      HasNewTopicIff(tick.discovery.names, topics);
      NoNewTopicsIffCovered(tick.discovery.names, topics);
    }
  }

  /** Both halves of the tick's description. */
  lemma StepSummary(topics: seq<string>, tick: Tick)
    ensures Upserts(Step(topics, tick).calls) ==
              (if Discovered(tick) && NewTopics(tick.discovery.names, topics) != {}
               then [tick.discovery.names] else [])
    ensures Step(topics, tick).state.Running? ==>
              Step(topics, tick).state.topics == topics
              || (Step(topics, tick).state.topics == tick.discovery.names && tick.upsert.Applied?)
  {
    StepCalls(topics, tick);
    StepState(topics, tick);
  }

  datatype LoopRun = LoopRun(calls: seq<Action>, state: LoopState)

  /** The loop over a finite sequence of ticks; once stopped, later ticks
      never happen. */
  function Run(state: LoopState, ticks: seq<Tick>): LoopRun
    decreases |ticks|
  {
    if |ticks| == 0 || state.Stopped? then LoopRun([], state)
    else
      var step := Step(state.topics, ticks[0]);
      var rest := Run(step.state, ticks[1..]);
      LoopRun(step.calls + rest.calls, rest.state)
  }

  /** One unfolding of `Run` on a running loop. */
  lemma RunFirstTick(topics: seq<string>, ticks: seq<Tick>)
    requires |ticks| > 0
    ensures Run(Running(topics), ticks) ==
              LoopRun(Step(topics, ticks[0]).calls + Run(Step(topics, ticks[0]).state, ticks[1..]).calls,
                      Run(Step(topics, ticks[0]).state, ticks[1..]).state)
  {
  }

  /** The loop asks the broker at most once and uploads at most once per
      tick, never validates, and a stopped loop does nothing. */
  lemma {:induction false} RunCallBounds(state: LoopState, ticks: seq<Tick>)
    ensures Discoveries(Run(state, ticks).calls) <= |ticks|
    ensures |Upserts(Run(state, ticks).calls)| <= |ticks|
    ensures Validations(Run(state, ticks).calls) == []
    ensures state.Stopped? ==> Run(state, ticks) == LoopRun([], state)
    decreases |ticks|
  {
    if |ticks| > 0 && state.Running? {
      var step := Step(state.topics, ticks[0]);
      StepCalls(state.topics, ticks[0]);
      var rest := Run(step.state, ticks[1..]);
      RunCallBounds(step.state, ticks[1..]);
      UpsertsAppend(step.calls, rest.calls);
      ValidationsAppend(step.calls, rest.calls);
      DiscoveriesAppend(step.calls, rest.calls);
    }
  }

  /** The lists some tick discovered. */
  function FoundLists(ticks: seq<Tick>): set<seq<string>>
  {
    set i | 0 <= i < |ticks| && Discovered(ticks[i]) :: ticks[i].discovery.names
  }

  /** The loop as the source writes it, a `while` over the ticks with the
      last applied list in a variable; it computes exactly `Run`. */
  method Loop(topics: seq<string>, ticks: seq<Tick>) returns (calls: seq<Action>, state: LoopState)
    ensures LoopRun(calls, state) == Run(Running(topics), ticks)
    ensures state.Running? ==> state.topics == topics || state.topics in FoundLists(ticks)
  {
    calls := [];
    state := Running(topics);
    var i := 0;
    while i < |ticks| && state.Running?
      invariant 0 <= i <= |ticks|
      invariant Run(Running(topics), ticks).state == Run(state, ticks[i..]).state
      invariant Run(Running(topics), ticks).calls == calls + Run(state, ticks[i..]).calls
      invariant state.Running? ==> state.topics == topics || state.topics in FoundLists(ticks)
    {
      var step := Step(state.topics, ticks[i]);
      RunFirstTick(state.topics, ticks[i..]);
      assert ticks[i..][0] == ticks[i];
      assert ticks[i..][1..] == ticks[i + 1..];
      if step.state.Running? && step.state.topics != state.topics {
        assert Discovered(ticks[i]) && step.state.topics == ticks[i].discovery.names;
      }
      calls := calls + step.calls;
      state := step.state;
      i := i + 1;
    }
    assert Run(state, ticks[i..]) == LoopRun([], state);
    assert calls + [] == calls;
  }

  /** Running the ticks `a + b` is running `a`, then `b` from where `a` left off. */
  lemma {:induction false} RunAppend(state: LoopState, a: seq<Tick>, b: seq<Tick>)
    ensures Run(state, a + b) ==
              LoopRun(Run(state, a).calls + Run(Run(state, a).state, b).calls,
                      Run(Run(state, a).state, b).state)
    decreases |a|
  {
    if |a| == 0 {
      assert a + b == b;
    } else if state.Running? {
      var step := Step(state.topics, a[0]);
      assert (a + b)[0] == a[0];
      assert (a + b)[1..] == a[1..] + b;
      RunAppend(step.state, a[1..], b);
    }
  }

  /** While the loop runs, its state is the list of the last upload it made
      (the configuration the Connect cluster holds), or the initial list if
      it made none. */
  lemma {:induction false} StateIsLastUpload(topics: seq<string>, ticks: seq<Tick>)
    requires Run(Running(topics), ticks).state.Running?
    ensures Run(Running(topics), ticks).state.topics ==
              LastOr(Upserts(Run(Running(topics), ticks).calls), topics)
    decreases |ticks|
  {
    if |ticks| > 0 {
      var step := Step(topics, ticks[0]);
      StepSummary(topics, ticks[0]);
      var rest := Run(step.state, ticks[1..]);
      UpsertsAppend(step.calls, rest.calls);
      RunFirstTick(topics, ticks);
      if step.state.Running? {
        StateIsLastUpload(step.state.topics, ticks[1..]);
        var ups := Upserts(step.calls) + Upserts(rest.calls);
        if Upserts(rest.calls) == [] {
          assert ups == Upserts(step.calls);
        } else {
          assert ups[|ups| - 1] == Upserts(rest.calls)[|Upserts(rest.calls)| - 1];
        }
      }
    }
  }

  /** Every upload carries a list some tick discovered, and the state is
      only ever the initial list or such a discovered list. */
  lemma {:induction false} UploadsAreDiscoveredLists(state: LoopState, ticks: seq<Tick>)
    ensures forall ts :: ts in Upserts(Run(state, ticks).calls) ==> ts in FoundLists(ticks)
    ensures Run(state, ticks).state.Running? ==>
              Run(state, ticks).state == state || Run(state, ticks).state.topics in FoundLists(ticks)
    decreases |ticks|
  {
    if |ticks| > 0 && state.Running? {
      var step := Step(state.topics, ticks[0]);
      StepSummary(state.topics, ticks[0]);
      var rest := Run(step.state, ticks[1..]);
      UpsertsAppend(step.calls, rest.calls);
      UploadsAreDiscoveredLists(step.state, ticks[1..]);
      assert FoundLists(ticks[1..]) <= FoundLists(ticks) by {
        forall ts | ts in FoundLists(ticks[1..])
          ensures ts in FoundLists(ticks)
        {
          var i :| 0 <= i < |ticks[1..]| && Discovered(ticks[1..][i]) && ts == ticks[1..][i].discovery.names;
          assert ticks[i + 1] == ticks[1..][i];
        }
      }
      assert Discovered(ticks[0]) ==> ticks[0].discovery.names in FoundLists(ticks);
    }
  }

  /** While discovery only ever finds names already exported (the topology
      is stable or shrinks), the loop makes no upload and its state never
      changes. */
  lemma {:induction false} ShrinkNeverUploads(topics: seq<string>, ticks: seq<Tick>)
    requires forall i :: 0 <= i < |ticks| && Discovered(ticks[i]) ==>
               Elements(ticks[i].discovery.names) <= Elements(topics)
    ensures Upserts(Run(Running(topics), ticks).calls) == []
    ensures Run(Running(topics), ticks).state.Running? ==>
              Run(Running(topics), ticks).state.topics == topics
    decreases |ticks|
  {
    if |ticks| > 0 {
      var step := Step(topics, ticks[0]);
      StepSummary(topics, ticks[0]);
      var rest := Run(step.state, ticks[1..]);
      UpsertsAppend(step.calls, rest.calls);
      RunCallBounds(step.state, ticks[1..]);
      if Discovered(ticks[0]) {
        NoNewTopicsIffCovered(ticks[0].discovery.names, topics);
      }
      if step.state.Running? {
        ShrinkNeverUploads(topics, ticks[1..]);
      }
    }
  }

  /** After a run that is still going, every name of the latest discovery is
      exported. */
  lemma CoversLatestDiscovery(topics: seq<string>, ticks: seq<Tick>)
    requires |ticks| > 0 && Discovered(ticks[|ticks| - 1])
    requires Run(Running(topics), ticks).state.Running?
    ensures Elements(ticks[|ticks| - 1].discovery.names) <=
              Elements(Run(Running(topics), ticks).state.topics)
  {
    var front := ticks[..|ticks| - 1];
    var last := ticks[|ticks| - 1];
    assert ticks == front + [last];
    RunAppend(Running(topics), front, [last]);
    var mid := Run(Running(topics), front).state;
    RunCallBounds(mid, [last]);
    assert mid.Running?;
    StepState(mid.topics, last);
    RunFirstTick(mid.topics, [last]);
    assert [last][1..] == [];
  }

  /** A failed upload ends the loop: the new topics are not retried on a
      later tick, and the state never advances. */
  lemma UploadFailureIsNotRetried(topics: seq<string>, current: seq<string>, later: seq<Tick>)
    requires NewTopics(current, topics) != {}
    ensures Run(Running(topics), [Poll(Found(current), UpsertRaised)] + later) ==
              LoopRun([Discover, CreateOrUpdate(current)], Stopped(Raised))
  {
    var ticks := [Poll(Found(current), UpsertRaised)] + later;
    HasNewTopicIff(current, topics);
    RunFirstTick(topics, ticks);
    RunCallBounds(Stopped(Raised), later);
    assert ticks[1..] == later;
  }

  /** Uploading is idempotent from the loop's side: once a discovered list
      has been applied, discovering it again makes no further call. */
  lemma RepeatedDiscoveryUploadsOnce(topics: seq<string>, current: seq<string>, u: Upsert)
    requires NewTopics(current, topics) != {}
    ensures Run(Running(topics), [Poll(Found(current), Applied), Poll(Found(current), u)]) ==
              LoopRun([Discover, CreateOrUpdate(current), Discover], Running(current))
  {
    var ticks := [Poll(Found(current), Applied), Poll(Found(current), u)];
    HasNewTopicIff(current, topics);
    HasNewTopicIff(current, current);
    NoNewTopicsIffCovered(current, current);
    assert Step(topics, ticks[0]) == StepResult([Discover, CreateOrUpdate(current)], Running(current));
    assert Step(current, ticks[1]) == StepResult([Discover], Running(current));
    RunFirstTick(topics, ticks);
    RunFirstTick(current, ticks[1..]);
    assert ticks[1..][0] == ticks[1];
    assert ticks[1..][1..] == [];
  }

  /** A worked run: from nothing, {a,b} is uploaded, then {a,b,c} in full
      when c appears; losing b later makes no call and keeps {a,b,c}. */
  lemma GrowThenShrinkScenario()
    ensures Run(Running([]), [Poll(Found(["a", "b"]), Applied),
                              Poll(Found(["a", "b", "c"]), Applied),
                              Poll(Found(["a", "c"]), Applied)]) ==
              LoopRun([Discover, CreateOrUpdate(["a", "b"]),
                       Discover, CreateOrUpdate(["a", "b", "c"]),
                       Discover],
                      Running(["a", "b", "c"]))
  {
    var ab, abc, ac := ["a", "b"], ["a", "b", "c"], ["a", "c"];
    var ticks := [Poll(Found(ab), Applied), Poll(Found(abc), Applied), Poll(Found(ac), Applied)];
    assert "a" in NewTopics(ab, []);
    assert "c" in NewTopics(abc, ab) by {
      assert "c" in Elements(abc);
      assert "c" != "a" && "c" != "b";
    }
    NoNewTopicsIffCovered(ac, abc);
    assert Step([], ticks[0]) == StepResult([Discover, CreateOrUpdate(ab)], Running(ab));
    assert Step(ab, ticks[1]) == StepResult([Discover, CreateOrUpdate(abc)], Running(abc));
    assert Step(abc, ticks[2]) == StepResult([Discover], Running(abc));
    RunFirstTick([], ticks);
    RunFirstTick(ab, ticks[1..]);
    RunFirstTick(abc, ticks[1..][1..]);
    assert ticks[1..][0] == ticks[1];
    assert ticks[1..][1..][0] == ticks[2];
    assert ticks[1..][1..][1..] == [];
  }
}
