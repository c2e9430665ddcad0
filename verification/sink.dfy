/** `create_s3_sink` as a whole: the one-shot dispatch, then, only when it
    falls through with --auto-update, the auto-update loop over a finite
    sequence of ticks. */
module S3Sink {
  import opened Optional
  import opened Calls
  import opened TopicSets
  import opened OneShot
  import opened AutoUpdate

  /** How a run over finitely many ticks ends: the command returned an exit
      code, the loop is still polling with the given last applied list, or
      the loop ended for the given reason. */
  datatype Outcome =
    | Returned(calls: seq<Action>, code: int)
    | Polling(calls: seq<Action>, topics: seq<string>)
    | Ended(calls: seq<Action>, stop: Stop)

  function CreateS3Sink(topicList: seq<string>, flags: Flags, discovered: seq<string>,
                        errorCount: Option<int>, ticks: seq<Tick>): Outcome
  {
    match Dispatch(topicList, flags, discovered, errorCount)
    case Return(calls, code) => Returned(calls, code)
    case EnterLoop(calls, topics) =>
      var run := Run(Running(topics), ticks);
      match run.state
      case Running(ts) => Polling(calls + run.calls, ts)
      case Stopped(why) => Ended(calls + run.calls, why)
  }

  /** Whether the command reaches the auto-update loop. */
  predicate Loops(topicList: seq<string>, flags: Flags, discovered: seq<string>)
  {
    |ExportList(topicList, discovered)| == 0 && flags.autoUpdate
  }

  /** The command returns exactly when it does not loop; a returned run has
      uploaded nothing, and any non-empty topic list returns before the loop,
      so the ticks are never consulted. */
  lemma ReturnsUnlessLooping(topicList: seq<string>, flags: Flags, discovered: seq<string>,
                             errorCount: Option<int>, ticks: seq<Tick>)
    ensures CreateS3Sink(topicList, flags, discovered, errorCount, ticks).Returned?
            <==> !Loops(topicList, flags, discovered)
    ensures CreateS3Sink(topicList, flags, discovered, errorCount, ticks).Returned? ==>
              Upserts(CreateS3Sink(topicList, flags, discovered, errorCount, ticks).calls) == []
    ensures !Loops(topicList, flags, discovered) ==>
              CreateS3Sink(topicList, flags, discovered, errorCount, ticks)
              == CreateS3Sink(topicList, flags, discovered, errorCount, [])
  {
  }

  /** Every upload the command makes comes from the loop, which started
      from an empty list after an empty discovery, and carries a list that a
      later discovery returned. */
  lemma UploadsOnlyFromLoop(topicList: seq<string>, flags: Flags, discovered: seq<string>,
                            errorCount: Option<int>, ticks: seq<Tick>)
    ensures Upserts(CreateS3Sink(topicList, flags, discovered, errorCount, ticks).calls) != [] ==>
              flags.autoUpdate && topicList == [] && discovered == []
    ensures forall ts :: ts in Upserts(CreateS3Sink(topicList, flags, discovered, errorCount, ticks).calls)
                         ==> ts in FoundLists(ticks)
    ensures Validations(CreateS3Sink(topicList, flags, discovered, errorCount, ticks).calls) != [] ==>
              Upserts(CreateS3Sink(topicList, flags, discovered, errorCount, ticks).calls) == []
  {
    var d := Dispatch(topicList, flags, discovered, errorCount);
    if d.EnterLoop? {
      var run := Run(Running(d.topics), ticks);
      UpsertsAppend(d.calls, run.calls);
      ValidationsAppend(d.calls, run.calls);
      RunCallBounds(Running(d.topics), ticks);
      UploadsAreDiscoveredLists(Running(d.topics), ticks);
    }
  }

  /** While the command keeps polling, the topic list it holds is the one
      of its last upload, that is, the list the Connect cluster was last
      given; before any upload it is empty. */
  lemma PollingStateIsLastUpload(topicList: seq<string>, flags: Flags, discovered: seq<string>,
                                 errorCount: Option<int>, ticks: seq<Tick>)
    requires CreateS3Sink(topicList, flags, discovered, errorCount, ticks).Polling?
    ensures CreateS3Sink(topicList, flags, discovered, errorCount, ticks).topics ==
              LastOr(Upserts(CreateS3Sink(topicList, flags, discovered, errorCount, ticks).calls), [])
  {
    var d := Dispatch(topicList, flags, discovered, errorCount);
    var run := Run(Running([]), ticks);
    UpsertsAppend(d.calls, run.calls);
    StateIsLastUpload([], ticks);
  }

  /** Once the command reaches the loop, --validate, --dry-run and the
      validation reply play no further part: the run is the same as a plain
      --auto-update run. */
  lemma FlagsIgnoredWhenLooping(topicList: seq<string>, flags: Flags, discovered: seq<string>,
                                errorCount: Option<int>, ticks: seq<Tick>)
    requires Loops(topicList, flags, discovered)
    ensures CreateS3Sink(topicList, flags, discovered, errorCount, ticks)
         == CreateS3Sink([], Flags(false, false, true), [], None, ticks)
  {
  }

  /** --dry-run does not keep the loop from uploading: with no topic found
      at start, a dry run with --auto-update uploads as soon as a topic
      appears. */
  lemma DryRunDoesNotGuardTheLoop()
    ensures Upserts(CreateS3Sink([], Flags(false, true, true), [], None,
                                 [Poll(Found(["t"]), Applied)]).calls) == [["t"]]
  {
    var ticks := [Poll(Found(["t"]), Applied)];
    assert "t" in NewTopics(["t"], []);
    StepCalls([], ticks[0]);
    RunFirstTick([], ticks);
    RunCallBounds(Step([], ticks[0]).state, ticks[1..]);
    UpsertsAppend([Discover], Run(Running([]), ticks).calls);
  }
}
