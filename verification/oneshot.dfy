/** The one-shot part of `create_s3_sink`: choose the topic list, then either
    validate, print the configuration (dry run), or validate and judge the
    reply; with no topics, fall through to the auto-update check. */
module OneShot {
  import opened Optional
  import opened Calls

  /** The three boolean options that steer the command. */
  datatype Flags = Flags(validate: bool, dryRun: bool, autoUpdate: bool)

  /** What the one-shot part decides: return an exit code, or go on to the
      auto-update loop holding the (empty) topic list. */
  datatype Decision =
    | Return(calls: seq<Action>, code: int)
    | EnterLoop(calls: seq<Action>, topics: seq<string>)

  /** The topic list the command works with: the explicit TOPICLIST
      arguments when there are any, otherwise what discovery returned. */
  function ExportList(topicList: seq<string>, discovered: seq<string>): seq<string>
  {
    if |topicList| == 0 then discovered else topicList
  }

  /** One run of the command up to the auto-update loop.
      `discovered` is what the broker would answer if asked and `errorCount`
      is the `error_count` parsed from the validation reply of the default
      path (`None` when parsing, lookup or the comparison with 0 raises). */
  function Dispatch(topicList: seq<string>, flags: Flags, discovered: seq<string>,
                    errorCount: Option<int>): (d: Decision)
    // the broker is asked exactly when no explicit list was given, and first
    ensures Discoveries(d.calls) == (if |topicList| == 0 then 1 else 0)
    ensures |topicList| == 0 ==> |d.calls| > 0 && d.calls[0] == Discover
    // no configuration is ever uploaded here
    ensures Upserts(d.calls) == []
    // validate is called at most once, with the whole topic list, and not on a dry run
    ensures Validations(d.calls) ==
              (if |ExportList(topicList, discovered)| > 0 && (flags.validate || !flags.dryRun)
               then [ExportList(topicList, discovered)] else [])
    // the loop is reached only without topics and with --auto-update
    ensures d.EnterLoop? <==> |ExportList(topicList, discovered)| == 0 && flags.autoUpdate
    ensures d.EnterLoop? ==> d.topics == []
    // failure is reported only for an unusable validation reply in the default path
    ensures d.Return? ==> (d.code == 0 || d.code == 1)
    ensures d.Return? && d.code == 1 <==>
              |ExportList(topicList, discovered)| > 0 && !flags.validate && !flags.dryRun
              && errorCount.None?
  {
    var asked := if |topicList| == 0 then [Discover] else [];
    var topics := ExportList(topicList, discovered);
    if |topics| > 0 then
      if flags.validate then
        Return(asked + [Validate(topics)], 0)
      else if flags.dryRun then
        Return(asked, 0)
      else
        // Every branch of the try/except returns, so the upload after it is
        // never reached.
        var code := if errorCount.Some? then 0 else 1;
        Return(asked + [Validate(topics)], code)
    else if flags.autoUpdate then
      EnterLoop(asked, topics)
    else
      Return(asked, 0)
  }

  /** With explicit topics the discovered list is never consulted: the
      decision is the same whatever the broker would have answered, and any
      validation carries the explicit list verbatim. */
  lemma ExplicitListUsedVerbatim(topicList: seq<string>, flags: Flags,
                                 discovered: seq<string>, other: seq<string>,
                                 errorCount: Option<int>)
    requires |topicList| > 0
    ensures Dispatch(topicList, flags, discovered, errorCount)
         == Dispatch(topicList, flags, other, errorCount)
    ensures Discoveries(Dispatch(topicList, flags, discovered, errorCount).calls) == 0
    ensures Validations(Dispatch(topicList, flags, discovered, errorCount).calls) <= [topicList]
  {
  }

  /** With no topics nothing is validated or uploaded; without --auto-update
      the command returns 0. */
  lemma EmptyTopicsNoRemoteCall(topicList: seq<string>, flags: Flags,
                                discovered: seq<string>, errorCount: Option<int>)
    requires |ExportList(topicList, discovered)| == 0
    ensures Dispatch(topicList, flags, discovered, errorCount).calls == [Discover]
    ensures !flags.autoUpdate ==> Dispatch(topicList, flags, discovered, errorCount).Return?
                                  && Dispatch(topicList, flags, discovered, errorCount).code == 0
  {
  }

  /** --validate wins over --dry-run: one validation, no upload, exit 0. */
  lemma ValidateTakesPrecedence(topicList: seq<string>, flags: Flags,
                                discovered: seq<string>, errorCount: Option<int>)
    requires |ExportList(topicList, discovered)| > 0 && flags.validate
    ensures Dispatch(topicList, flags, discovered, errorCount)
         == Dispatch(topicList, flags.(dryRun := !flags.dryRun), discovered, errorCount)
    ensures |Validations(Dispatch(topicList, flags, discovered, errorCount).calls)| == 1
    ensures Dispatch(topicList, flags, discovered, errorCount) ==
              Return(Dispatch(topicList, flags, discovered, errorCount).calls, 0)
  {
  }

  /** A dry run with topics makes no call on the Connect API and returns 0. */
  lemma DryRunIsLocal(topicList: seq<string>, flags: Flags,
                      discovered: seq<string>, errorCount: Option<int>)
    requires |ExportList(topicList, discovered)| > 0 && flags.dryRun && !flags.validate
    ensures Dispatch(topicList, flags, discovered, errorCount).calls ==
              (if |topicList| == 0 then [Discover] else [])
    ensures Dispatch(topicList, flags, discovered, errorCount).Return?
    ensures Dispatch(topicList, flags, discovered, errorCount).code == 0
  {
  }

  /** The default path: once the reply yields a usable count its value does
      not matter (exit 0 for any count); an unusable reply gives exit 1. */
  lemma CommitIgnoresErrorCount(topicList: seq<string>, flags: Flags,
                                discovered: seq<string>, n: int, m: int)
    requires |ExportList(topicList, discovered)| > 0 && !flags.validate && !flags.dryRun
    ensures Dispatch(topicList, flags, discovered, Some(n))
         == Dispatch(topicList, flags, discovered, Some(m))
    ensures Dispatch(topicList, flags, discovered, Some(n)).code == 0
    ensures Dispatch(topicList, flags, discovered, None).code == 1
    ensures Dispatch(topicList, flags, discovered, None).calls
         == Dispatch(topicList, flags, discovered, Some(n)).calls
  {
  }
}
