# The `s3-sink` command of kafkaconnect, modelled in Dafny

`create_s3_sink` (the `kafkaconnect s3-sink` command) builds the configuration
of an S3 Sink connector and manages it on a Kafka Connect cluster. It works in
two parts:

- **One-shot dispatch.** Take the explicit TOPICLIST arguments, or discover
  the topics on the Kafka broker when there are none. With topics,
  `--validate` sends the configuration to the Connect validation endpoint.
  `--dry-run` prints the configuration. The default path validates and
  judges the reply. Without topics, the command falls through to the
  `--auto-update` check.
- **Auto-update loop.** Sleep, rediscover the topics, and upload the
  configuration with the full discovered list when it names a topic that the
  last applied list does not have. Only after that upload returns does the
  discovered list become the new last applied list.

The model is functional. The broker, the Connect REST API and keyboard
interrupts are oracle inputs. Each run yields a trace of abstract calls
(`Discover`, `Validate(topics)`, `CreateOrUpdate(topics)`) plus an exit code
or a loop state. Files:

- `calls.dfy`: modules `Optional`, `Calls` and `TopicSets`. `Calls` holds the
  call trace and its projections. `TopicSets` holds the set view of a topic
  list, `set(current) - set(topics)`.
- `oneshot.dfy`: module `OneShot`, with `Dispatch` for lines 267-307.
- `autoupdate.dfy`: module `AutoUpdate`. `Step` is one tick and `Run` is the
  loop over a finite sequence of ticks. `Loop` is the same loop written as a
  `while`.
- `sink.dfy`: module `S3Sink`, with `CreateS3Sink` for the whole command.

## What the code does, where it differs from its documentation

The model follows the code as written.

- In the default path (no `--validate`, no `--dry-run`), both branches of
  the `try`/`except` return (lines 301 and 304). So the upload at lines
  305-306 never runs. A reply with any usable `error_count` gives exit 0,
  including counts above zero. An unusable reply gives exit 1. The docstring
  suggests the command creates the connector, but no path with topics at
  start uploads anything.
- Every path with a non-empty topic list at start returns before line 307.
  So the loop only runs after discovery found nothing. It starts from the
  empty list, and its first upload is the first one the command ever makes.
- The loop never validates. It uploads only when discovery finds a name
  that is not in the last applied list, so a pure shrink never uploads, but
  a same-size swap does.
- An exception from discovery or from the upload is not retried. It
  propagates out of `while True`, because only `KeyboardInterrupt` is
  caught. A `KeyboardInterrupt` inside the `try` becomes the "Interruped."
  `ClickException`. One during the `time.sleep` at line 309 is outside the
  `try` and escapes as is.
- `--dry-run` does not guard the loop. `--dry-run --auto-update` with no
  topics at start uploads once a topic appears. `S3Sink.FlagsIgnoredWhenLooping`
  shows that once the loop is reached the run does not depend on `--dry-run`,
  `--validate` or the validation reply.

## Model

| member | source | states |
|---|---|---|
| `OneShot.Dispatch` | src/kafkaconnect/s3_sink/cli.py:267-307 | Discovery is asked once, as the first call, exactly when TOPICLIST is empty. Nothing is ever uploaded before the loop. Validate is called at most once, with the whole topic list, and exactly when there are topics and either `--validate` is set or `--dry-run` is not. The loop is reached iff there are no topics and `--auto-update` is set, and it then starts from the empty list. The exit code is 0 or 1, and it is 1 exactly for an unusable validation reply in the default path. |
| `OneShot.ExplicitListUsedVerbatim` | src/kafkaconnect/s3_sink/cli.py:267-270 | With an explicit list the decision does not depend on what discovery would return, the broker is not asked, and any validation carries the explicit list verbatim. |
| `OneShot.EmptyTopicsNoRemoteCall` | src/kafkaconnect/s3_sink/cli.py:268-275 | With no topics the only call is the discovery itself, with no validate and no upload. Without `--auto-update` the command returns 0 (line 325). |
| `OneShot.ValidateTakesPrecedence` | src/kafkaconnect/s3_sink/cli.py:277-288 | With topics and `--validate`, flipping `--dry-run` changes nothing: exactly one validation, no upload, exit 0. |
| `OneShot.DryRunIsLocal` | src/kafkaconnect/s3_sink/cli.py:286-288 | With topics, `--dry-run` and no `--validate`, the Connect API gets no call and the command returns 0. |
| `OneShot.CommitIgnoresErrorCount` | src/kafkaconnect/s3_sink/cli.py:290-304 | In the default path the decision is the same for every parsed error count, and it returns 0. An unusable reply returns 1 after the same calls. |
| `TopicSets.NoNewTopicsIffCovered` | src/kafkaconnect/s3_sink/cli.py:315-316 | The difference `set(current) - set(topics)` is empty iff every discovered name is in the applied list. |
| `TopicSets.HasNewTopicIff` | src/kafkaconnect/s3_sink/cli.py:315-316 | The scan `Step` uses to decide whether to upload is true iff the set difference is non-empty. |
| `AutoUpdate.Step` | src/kafkaconnect/s3_sink/cli.py:310-322 | One tick: the answer of discovery, the upload decision by set difference, and the upload outcome. `Step` has no contract of its own; its behaviour is stated by `AutoUpdate.StepCalls` and `AutoUpdate.StepState` below. |
| `AutoUpdate.StepCalls` | src/kafkaconnect/s3_sink/cli.py:310-321 | Each wake-up asks the broker once and never validates. It uploads iff discovery returned a list with a name not in the applied list, and the upload carries the full discovered list, not the difference. |
| `AutoUpdate.StepState` | src/kafkaconnect/s3_sink/cli.py:315-324 | The loop survives a tick iff the sleep and discovery were not interrupted, nothing raised, and the upload (if one was made) returned. The state changes only to the uploaded list, and only after the upload returned. After a surviving tick every discovered name is in the state. |
| `AutoUpdate.Run` | src/kafkaconnect/s3_sink/cli.py:307-324 | The loop over a finite sequence of ticks, stopping at the first tick that raises or is interrupted. `Run` has no contract of its own; its behaviour is stated by `RunCallBounds`, `StateIsLastUpload`, `UploadsAreDiscoveredLists`, `ShrinkNeverUploads` and `CoversLatestDiscovery` below, and `Loop` is proved to compute it. |
| `AutoUpdate.RunCallBounds` | src/kafkaconnect/s3_sink/cli.py:308-324 | Over any finite sequence of ticks the loop makes at most one discovery and one upload per tick and no validation. Once stopped it does nothing more. |
| `AutoUpdate.Loop` | src/kafkaconnect/s3_sink/cli.py:307-324 | The `while` form of the loop computes the same calls and state as the recursive `Run`. While it runs, its list is the initial one or a list some tick discovered. |
| `AutoUpdate.RunAppend` | src/kafkaconnect/s3_sink/cli.py:308-324 | Running the ticks `a + b` is running `a` and then `b` from where `a` left off, so the loop has no hidden state beyond the last applied list. |
| `AutoUpdate.StateIsLastUpload` | src/kafkaconnect/s3_sink/cli.py:315-322 | While the loop runs, its state equals the list of the last upload it made, or the initial list if it made none. So the in-memory list is what the Connect cluster was last given. |
| `AutoUpdate.UploadsAreDiscoveredLists` | src/kafkaconnect/s3_sink/cli.py:312-322 | Every upload carries a list some tick discovered, and the state is only ever the initial list or such a list. |
| `AutoUpdate.ShrinkNeverUploads` | src/kafkaconnect/s3_sink/cli.py:315-316 | While every discovery finds only names already applied (the topology is stable or shrinks), the loop makes no upload and its state stays put. |
| `AutoUpdate.CoversLatestDiscovery` | src/kafkaconnect/s3_sink/cli.py:312-322 | After a run that is still going and whose last tick discovered a list, every name of that list is in the state. |
| `AutoUpdate.UploadFailureIsNotRetried` | src/kafkaconnect/s3_sink/cli.py:319-324 | An upload that raises stops the loop after exactly one `Discover` and one `CreateOrUpdate`, ending as `Stopped(Raised)`. Later ticks never happen, so the new topics are not retried. |
| `AutoUpdate.RepeatedDiscoveryUploadsOnce` | src/kafkaconnect/s3_sink/cli.py:315-322 | Once a discovered list has been applied, discovering it again makes no further call. |
| `AutoUpdate.GrowThenShrinkScenario` | src/kafkaconnect/s3_sink/cli.py:312-322 | Starting from nothing: {a,b} is uploaded. Then {a,b,c} is uploaded in full when c appears. Losing b afterwards makes no call and keeps {a,b,c}. |
| `S3Sink.CreateS3Sink` | src/kafkaconnect/s3_sink/cli.py:264-325 | The whole command: `Dispatch`, then `Run` from the empty list when it falls through with `--auto-update`. It has no contract of its own; its behaviour is stated by `ReturnsUnlessLooping`, `UploadsOnlyFromLoop`, `PollingStateIsLastUpload` and `FlagsIgnoredWhenLooping` below. |
| `S3Sink.ReturnsUnlessLooping` | src/kafkaconnect/s3_sink/cli.py:274-307 | The command returns iff it does not reach the loop. A returned run uploaded nothing. With any topics at start the ticks are never consulted. |
| `S3Sink.UploadsOnlyFromLoop` | src/kafkaconnect/s3_sink/cli.py:289-321 | Any upload implies `--auto-update`, an empty TOPICLIST and an empty first discovery. It carries a list a later discovery returned. A run that validated uploaded nothing. |
| `S3Sink.PollingStateIsLastUpload` | src/kafkaconnect/s3_sink/cli.py:307-322 | While the command keeps polling, its topic list is that of its last upload, or empty before any upload. |
| `S3Sink.FlagsIgnoredWhenLooping` | src/kafkaconnect/s3_sink/cli.py:274-324 | For all inputs that reach the loop (empty TOPICLIST, empty first discovery, `--auto-update`), the outcome equals that of a plain `--auto-update` run: `--dry-run`, `--validate` and the validation reply play no part. |
| `S3Sink.DryRunDoesNotGuardTheLoop` | src/kafkaconnect/s3_sink/cli.py:286-321 | With `--dry-run --auto-update`, no topics at start, and one topic appearing on the first tick, the command uploads that topic. |

## Left out

- The click decorators, option defaults, environment-variable sources and help strings (lines 19-216): declarations with no behaviour.
- The content of the connector configuration. `S3Config` construction (lines 250-263), its JSON rendering and `Config` are not modelled. A configuration is represented by the topic list `update_topics` puts into it, which is the list carried by `Validate` and `CreateOrUpdate`.
- The `ctx.parent` lookup of `config` (lines 264-265). Without a parent context, `config` is unbound and the command raises at line 270 when discovering, otherwise at line 273. Every run is modelled as if the lookup succeeds.
- JSON decoding of the validation reply (line 294). It is abstracted to `Option<int>`, where `None` stands for a parse failure, a missing `error_count`, or a value that cannot be compared with 0.
- Exceptions raised by `connect.validate` in the one-shot part (lines 279 and 290). The oracle always yields a reply. In the code such an exception propagates out of the command.
- OneShot.Dispatch: the first discovery (line 270) always returns a list of names; an exception or a KeyboardInterrupt raised there, which would end the command after that single discovery call, is not modelled. Only the loop's discovery (`AutoUpdate.Discovery`) can raise or be interrupted.
- `Topic(...).names` returning something other than a list. Discovery is modelled as a list of names, or, inside the loop only, as raising or being interrupted.
- The `time.sleep` call and the check interval (line 309). A tick is one step, and no timing is modelled.
- The unbounded `while True`. The loop is modelled over finite sequences of ticks, and a run that has not stopped is reported as still polling.
- Interrupts in the one-shot part, and interrupts in the loop at finer points than the sleep, the loop's discovery and the upload. For example, an interrupt between the return of `create_or_update` and the assignment at line 322 is not modelled.
- `click.echo` output, and how click turns a return value or an exception into a process exit status. The model reports the returned code and the reason the loop stopped.
