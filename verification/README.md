# DevBlog: delivery, rotation and cache protocols, modelled and proved

DevBlog is a blog platform of small services. `post-service` and `comment-service` each keep their own
database and tell each other about changes through a transactional outbox, relays, a RabbitMQ queue
and a consumer that skips duplicates by a Redis mark. `identity-service` rotates refresh tokens in
families and throttles logins; the browser refreshes its session through one shared request. Reads go
through a Redis cache whose namespaces carry a version. This project models those protocols in Dafny
and proves what they keep.

The model has two layers. Operations that the services carry out step by step are methods of classes
(`OutboxRelay`, `RabbitMqConsumer`, `SqlAlchemyUnitOfWork`, `PostCommandHandler`, ...), each proved
against functions on database values or against runs of a transition system. Over those functions and
transition systems the theorems speak about every input, every interleaving and every reachable state.

| Files | Content |
|---|---|
| `Pipeline`, `PipelineOrder`, `PipelineProgress` | one outbox, any number of relays, one queue, one consumer: no loss, order, exactly-once effect, quiescence |
| `PipelineLimits`, `PipelineLostMarks`, `PipelineFailures`, `ConvergenceLimits` | exactly when a returned message, a lost or expired mark, a duplicate check without Redis or a dead letter breaks the order, and a run of both services that does not converge |
| `LateDelivery`, `ConvergenceReturns`, `ReturnDivergence` | exactly when a returned message keeps the two services from converging |
| `Messaging`, `UnitOfWork` | the relay, the consumer and the unit of work as they execute |
| `PostService`, `PostHandlers`, `CommentService`, `CommentHandlers` | commands, events and event handlers of the two services |
| `PostLaws`, `CommentLaws` | what each command refuses, stores, announces and leaves alone, field by field; how edits combine; where a comment comes from |
| `BlogSystem`, `Convergence` | both services joined by a pipeline in each direction; convergence of known posts and comment counts |
| `RefreshTokens`, `AuthHandlers`, `BrowserSession`, `LoginThrottle` | token families, the handler, the browser's single-flight refresh, the login throttle |
| `CacheAside`, `RateLimiter` | the versioned cache under interleaving; the fixed-window limiter |
| `Slug`, `SlugLaws`, `Text`, `Wrappers` | slugs, tags, unique slugs, and what they are in terms of the text; options and results |

## Assumptions

- Every command transaction is one atomic step, and the order of commits is the order of outbox ids.
- A message is identified with its outbox row, because `event_id` is fresh for each event. UUIDs, raw
  tokens and token hashes are fresh, and hashing is injective, so a token stands for its hash.
- A queue is first-in first-out with one serial consumer. A message that was not acknowledged goes
  back to a position of the broker's choice or to the dead-letter queue; the choice is part of the step.
- The ordering and convergence theorems speak about orderly runs (`PipelineOrder.Orderly`): Redis
  answers the consumer, marks do not expire, and a returned message goes back to the head of the queue.
  Crashes of relays and consumer, raising handlers, failing publications and duplicates stay allowed.
  `NoLoss` and `PublishedRowsArePrefix` hold for all runs.
- Each identity handler call is one serialised transaction; the browser has one tab. A logout's
  transaction and the deletion of the cookie by its response are one step.
- The cache loader is one atomic database read.

## What the code does where its documentation says otherwise

- `docs/ARCHITECTURE.md:360` says that the consumer's duplicate check makes the double publications of
  parallel relays harmless. That is proved for orderly runs (`ExactlyOnceEffect`). It is false when the
  Redis mark behind the check is missing: `LostMarkKeepsOrderIff`, `ExpiredMarkKeepsOrderIff` and
  `CheckWithoutRedisKeepsOrderIff` say exactly when a lost mark, an expired mark or a check without Redis
  keeps the order of execution, and `HarmfulLossIsReached` is a run of two relays to a loss that does not.
- A message whose handler raises is retried, but nothing keeps later messages behind it.
  `ReturnKeepsOrderIff` says exactly which returns keep the order of execution, `DeadLetterKeepsOrderIff`
  which dead letters do. Convergence needs less than order: `ReturnConvergesIff` says that a return keeps
  the services from converging exactly when the last event of the same post overtakes the message and
  leaves something else. `RetryRevivesDeletedPost` is such a run, with a single relay and no duplicate:
  it ends drained with a deleted post still known.
- `post.created` is recorded before the slug is made unique (`services/post-service/app/domain/post.py:68`,
  `services/post-service/app/application/commands/handlers.py:48`), so it can carry another slug than
  the stored one: `CreatedEventSlug` gives the exact condition, `SecondCreationAnnouncesTakenSlug` the
  input.
- Creation refuses an empty slug, an update does not (`post.py:98-99`): `UpdateEmptiesSlugIff` gives the
  exact condition, `ExclamationSlugIsStored` the input.
- The cache is only as good as its bumps, whose failure `bump` swallows: `LostBumpHarmsIff` says exactly
  when a lost bump lets a stale value be served although nobody waits to bump, `LostBumpServesStale` is
  such a run.
- A refresh whose successful response is lost makes the next refresh a token reuse, which revokes the
  family: `LostResponseHarmsIff` gives the exact condition over all later runs, `LostResponseRun` a run.
- `logout` (`frontend/src/shared/auth/AuthContext.tsx:60-67`) does not wait for a refresh in flight. It leads
  to a reuse if that refresh was sent with the same cookie and is not served yet (`LogoutRun`), or was
  served and its answer is still to arrive (`LogoutBeforeAnswerRun`), and in no other case
  (`LogoutHarmsIff`).

## Model

| member | source | states |
|---|---|---|
| `Pipeline.PublishedRowsArePrefix` | libs/py-common/devblog_common/persistence/outbox.py:80-98 | in every run with any number of relays on stale batches, crashes and failed publications, the rows with `published_at` set are a prefix of the outbox, each of them was sent, and first occurrences in the broker log are in id order |
| `Pipeline.PendingFollowsPrefix` | libs/py-common/devblog_common/persistence/outbox.py:83-87 | the batch query returns, without a gap, the rows right after the published prefix; an empty answer means that every row is published |
| `Pipeline.PendingIsFirst` | libs/py-common/devblog_common/persistence/outbox.py:83-87 | on any rows the batch query returns unpublished rows in id order, at most the limit, and leaves one out only when the batch is full with smaller ones |
| `Pipeline.RelaysInvStep` | libs/py-common/devblog_common/persistence/outbox.py:88-96 | every single step of any relay, commit or consumer keeps the relay invariant |
| `Pipeline.NoLoss` | libs/py-common/devblog_common/messaging/consumer.py:94-139 | whatever fails, a committed bound event is an unpublished row, a queued message, a handled event or a dead letter; only handled events are acknowledged |
| `Pipeline.AccountedStep` | libs/py-common/devblog_common/messaging/consumer.py:110-139 | every single step, failures included, keeps each published event in queue, acknowledged or dead-lettered and acknowledges only what was handled |
| `PipelineOrder.HandlersRunInOrder` | libs/py-common/devblog_common/messaging/consumer.py:118-139 | in every orderly run the handler executions, adjacent repetitions removed, are exactly the bound rows of an outbox prefix in id order |
| `PipelineOrder.ExactlyOnceEffect` | libs/py-common/devblog_common/messaging/consumer.py:118-139 | in every orderly run an absolute-value handler has built the fold over a prefix of the committed events, duplicates notwithstanding |
| `PipelineOrder.OrderStep` | libs/py-common/devblog_common/messaging/consumer.py:110-139 | every orderly step keeps queue order, marks and executions consistent |
| `PipelineOrder.HandledIsNext` | libs/py-common/devblog_common/messaging/consumer.py:124-125 | a message that passes the duplicate check is the last executed event again or the next bound one |
| `PipelineOrder.CollapsedExecutions` | libs/py-common/devblog_common/messaging/consumer.py:118-139 | a stuttering of the outbox without its repetitions is the list of bound rows up to the last one executed |
| `PipelineOrder.ExecutionsFoldToPrefix` | docs/ARCHITECTURE.md:138 | folding an idempotent handler over a stuttering equals folding it over the prefix |
| `PipelineOrder.DrainedFrontier` | libs/py-common/devblog_common/persistence/outbox.py:80-98 | with all rows published and the queue empty no bound event is left unhandled |
| `PipelineProgress.ProgressLowersMeasure` | libs/py-common/devblog_common/persistence/outbox.py:80-98 | every failure-free relay or consumer step lowers a measure over unpublished rows, relay batches and queued messages |
| `PipelineProgress.ProgressRunsEnd` | libs/py-common/devblog_common/persistence/outbox.py:80-98 | no failure-free run without commits is longer than the measure |
| `PipelineProgress.QuiescentIffSettled` | libs/py-common/devblog_common/messaging/consumer.py:110-139 | no such step is possible if and only if everything is published, delivered and acknowledged |
| `PipelineProgress.Drain` | libs/py-common/devblog_common/messaging/consumer.py:110-139 | from every state of the invariant some orderly, failure-free run settles the pipeline |
| `PipelineLimits.ReturnKeepsOrderIff` | libs/py-common/devblog_common/messaging/consumer.py:130-137 | returning a message to a queue position keeps all orderly continuations in order if and only if the message is marked or not overtaken by a later event |
| `PipelineLimits.OvertakenBreaksOrder` | libs/py-common/devblog_common/messaging/consumer.py:130-137 | an overtaken message leads, without further failure, to executions out of order |
| `PipelineLostMarks.LostMarkKeepsOrderIff` | libs/py-common/devblog_common/messaging/consumer.py:102-108 | losing the mark of a handled message keeps all orderly continuations in order if and only if no copy of it can arrive behind a later event, decided by the queue and the relays: the first queued copy, else a stale batch that still holds the marked row, else a relay about to mark the row while another can read it |
| `PipelineLostMarks.HarmfulLossIsReached` | libs/py-common/devblog_common/messaging/consumer.py:102-108 | an orderly run of two relays reaches a state in which losing the mark breaks the order |
| `PipelineFailures.CheckWithoutRedisKeepsOrderIff` | libs/py-common/devblog_common/messaging/consumer.py:94-100 | a duplicate check without Redis keeps all orderly continuations in order if and only if the message is unmarked or the last one executed |
| `PipelineFailures.ExpiredMarkKeepsOrderIff` | libs/py-common/devblog_common/messaging/consumer.py:102-108 | a mark that expires between messages keeps them in order if and only if no copy of its event is or can come behind a later event |
| `PipelineFailures.DeadLetterKeepsOrderIff` | libs/py-common/devblog_common/messaging/topology.py:30-39 | dead-lettering a message keeps them in order if and only if it was processed, or a copy of it comes before every later event |
| `PipelineFailures.GoneRun` | libs/py-common/devblog_common/persistence/outbox.py:80-98 | while the row of a dead-lettered message is unmarked, every orderly run sends it again before any later row |
| `PipelineLostMarks.LostRun` | libs/py-common/devblog_common/messaging/consumer.py:94-127 | after a harmless loss every orderly run proceeds as if the mark were written, or a copy has restored the order |
| `PipelineLostMarks.NewEventOvertakes` | libs/py-common/devblog_common/persistence/outbox.py:80-98 | with the marked row in one relay's stale batch, another relay can deliver a new event before the copy |
| `PipelineLostMarks.RereadOvertakes` | libs/py-common/devblog_common/persistence/outbox.py:80-98 | while a relay has sent but not marked the row, another relay can read it anew and send it behind a later event |
| `PipelineLostMarks.OrderlyStates` | libs/py-common/devblog_common/persistence/outbox.py:80-98 | every state that an orderly run reaches meets the hypotheses of the two exact conditions |
| `PipelineLostMarks.SentInOrderRun` | libs/py-common/devblog_common/persistence/outbox.py:83-96 | over every run a row is sent only after all rows before it were marked |
| `ConvergenceLimits.RetryRevivesDeletedPost` | services/comment-service/app/application/handlers.py:110-130 | a run of both services through create, publish and delete of any post, with one raising handler, ends drained and not converged: the deleted post still accepts comments |
| `ReturnDivergence.ReturnConvergesIff` | libs/py-common/devblog_common/messaging/consumer.py:130-137 | in every reachable state, after a returned message every draining run of both services converges if and only if the message is marked, or the last event of its post does not overtake it, or both leave the same of the post |
| `ConvergenceReturns.LateRun` | services/comment-service/app/application/handlers.py:110-130 | while such a message is late, every orderly run of both services keeps known posts and counts as if it had been handled in time, but for its own post |
| `ConvergenceReturns.LateDrained` | services/comment-service/app/application/handlers.py:110-130 | drained, the late message's post is right as well and the services have converged |
| `ReturnDivergence.WrongDiverges` | services/comment-service/app/application/handlers.py:110-130 | a post that stays known as an earlier event left it disagrees with post-service |
| `LateDelivery.LateElsewhere` | libs/py-common/devblog_common/messaging/consumer.py:118-139 | every orderly step that is not on the late message is a step of the pipeline in which it was handled in time |
| `ConvergenceLimits.HeadIsHandled` | libs/py-common/devblog_common/messaging/consumer.py:118-127 | a failure-free delivery brings exactly the head's event to comment-service's database |
| `PipelineLimits.ConsumeMany` | libs/py-common/devblog_common/messaging/consumer.py:118-127 | consuming the first messages without failures executes each unmarked one and marks them all |
| `Messaging.OutboxRelay.PublishPending` | libs/py-common/devblog_common/persistence/outbox.py:80-98 | one call is a run of pipeline steps; confirmed rows are marked, the first failing row counts an attempt and ends the call, nothing else changes; a call sends at most `batch_size` rows, and one that sends fewer without a failure leaves nothing unpublished |
| `Messaging.SmallBatchIsLast` | libs/py-common/devblog_common/persistence/outbox.py:83-98 | marking a batch below the limit leaves no row unpublished |
| `Messaging.MarkedAt` | libs/py-common/devblog_common/persistence/outbox.py:95-96 | marking sets `published_at` of exactly the confirmed rows |
| `Messaging.RabbitMqConsumer.OnMessage` | libs/py-common/devblog_common/messaging/consumer.py:110-139 | one call is a run of pipeline steps: skip and acknowledge a duplicate, else handle, mark, acknowledge; a raising handler leaves exactly the returned message behind, a malformed body is dead-lettered |
| `Messaging.RabbitMqConsumer.Nack` | libs/py-common/devblog_common/messaging/topology.py:30-39 | a rejected message is dead-lettered, a returned one keeps its place in the queue's contents |
| `Messaging.HandleRuns` | libs/py-common/devblog_common/messaging/consumer.py:118-127 | the success path executes, marks if Redis answers, then acknowledges the head message |
| `Messaging.RaiseRuns` | libs/py-common/devblog_common/messaging/consumer.py:130-137 | the failure path returns the message and leaves marks and executions alone |
| `UnitOfWork.SqlAlchemyUnitOfWork.Commit` | libs/py-common/devblog_common/persistence/unit_of_work.py:51-71 | state and the tracked aggregates' events, in tracking then recording order, become durable together; hooks run once and only then; a failed transaction changes neither |
| `UnitOfWork.SqlAlchemyUnitOfWork.RunHooks` | libs/py-common/devblog_common/persistence/unit_of_work.py:65-71 | every hook is called once in order even when others raise |
| `UnitOfWork.SqlAlchemyUnitOfWork.StageEvents` | libs/py-common/devblog_common/persistence/unit_of_work.py:51-63 | staging appends each aggregate's recorded events and empties its list |
| `UnitOfWork.SqlAlchemyUnitOfWork.CommitTwice` | libs/py-common/devblog_common/persistence/unit_of_work.py:51-71 | committing twice writes each event and calls each hook once |
| `UnitOfWork.SqlAlchemyUnitOfWork.Track` | libs/py-common/devblog_common/persistence/unit_of_work.py:44-46 | an aggregate is tracked once, by identity |
| `UnitOfWork.SqlAlchemyUnitOfWork.TrackTwice` | libs/py-common/devblog_common/persistence/unit_of_work.py:44-46 | tracking an aggregate twice adds its events once |
| `UnitOfWork.SqlAlchemyUnitOfWork.AbortedCommand` | libs/py-common/devblog_common/persistence/unit_of_work.py:34-39 | whatever list of track, record, write, on-commit and failing commit steps a command takes before it raises, state, outbox and hooks stay as they were |
| `UnitOfWork.RecordedNothing` | libs/py-common/devblog_common/domain.py:39-42 | aggregates whose events were pulled contribute nothing to a later commit |
| `UnitOfWork.AggregateRoot.PullEvents` | libs/py-common/devblog_common/domain.py:39-42 | pulling returns the recorded events and clears them |
| `Convergence.KnownPostsArePrefixProjection` | services/comment-service/app/application/handlers.py:110-130 | in every state that an orderly run of both services reaches, the known posts equal the projection folded over a prefix of post-service's committed events |
| `Convergence.DrainedStatesConverge` | services/post-service/app/application/integration_handlers.py:15-20 | in every reachable state with both pipelines drained, known posts and comment counts agree with post-service and comment-service |
| `Convergence.DrainedPostsAgree` | services/comment-service/app/application/handlers.py:66-68 | drained, a post accepts comments if and only if it exists and is published; known slugs, titles and states match; deleted posts are absent |
| `Convergence.DrainedCountsAgree` | services/post-service/app/application/commands/handlers.py:100-109 | drained, every stored post's `comment_count` is its number of approved comments, although deletion removes comments without count events |
| `Convergence.InvStep` | libs/py-common/devblog_common/messaging/topology.py:16-20 | every orderly move of the two services keeps the system invariant |
| `Convergence.AdvanceLowersMeasure` | services/comment-service/app/application/handlers.py:113-130 | consuming never appends to an outbox, and every pipeline step lowers a measure |
| `Convergence.AdvancingRunsEnd` | services/comment-service/app/application/handlers.py:113-130 | no run of pipeline steps is longer than the measure |
| `Convergence.QuietIffNothingAdvances` | services/post-service/app/application/integration_handlers.py:15-20 | no pipeline step is possible if and only if both pipelines are settled |
| `Convergence.BlogDrains` | services/comment-service/app/application/handlers.py:113-130 | from every reachable state pipeline steps alone lead to a quiet, converged state without new events |
| `BlogSystem.EventsFollowCommand` | services/post-service/app/domain/post.py:85-139 | projecting a command's events keeps known posts in agreement with the stored posts |
| `BlogSystem.CommandIds` | services/post-service/app/domain/post.py:124-139 | events name the command's post only; deletion events name posts that are gone; commands leave counts alone |
| `BlogSystem.ProjectIsAbsolute` | services/comment-service/app/application/handlers.py:113-128 | the known-post handler is idempotent and ignores events its queue is not bound to |
| `PostService.ExecuteKeeps` | services/post-service/app/application/commands/handlers.py:34-130 | every command keeps post slugs distinct and well-shaped, categories existing, published posts dated, category slugs distinct, texts and tags within their limits |
| `PostService.HistoryKeeps` | services/post-service/app/application/commands/handlers.py:34-130 | the same over every history of commands and count synchronisations |
| `PostService.FirstPublicationIsKept` | services/post-service/app/domain/post.py:109-122 | no command changes the first publication date of a post it keeps; only deletion removes a post |
| `PostService.FirstPublicationIsForever` | services/post-service/app/domain/post.py:109-115 | the first publication date never changes over any history |
| `PostService.PublicationRoundTrip` | services/post-service/app/domain/post.py:109-122 | a second publication or withdrawal is refused; withdrawing restores the row but for its date; publishing again restores the published row |
| `PostService.CreatedEventSlug` | services/post-service/app/domain/post.py:66-69 | `post.created` carries the stored slug if and only if the derived slug was free |
| `PostService.SecondCreationAnnouncesTakenSlug` | services/post-service/app/application/commands/handlers.py:37-48 | creating any accepted draft a second time announces a slug other than the one stored |
| `PostService.CreateRefusesEmptySlug` | services/post-service/app/domain/post.py:66-67 | creation fails with an empty slug if and only if the text has no slug character; created posts have a slug |
| `PostService.UpdateEmptiesSlugIff` | services/post-service/app/domain/post.py:98-99 | an update leaves an empty slug exactly when the given slug vanishes or none is given and it was empty |
| `PostService.ExclamationSlugIsStored` | services/post-service/app/domain/post.py:98-99 | updating any stored post with the slug "!!!" succeeds and leaves it without a slug, unless another post already has none |
| `PostService.CandidateShape` | services/post-service/app/application/commands/handlers.py:22-27 | the uniqueness suffix keeps the slug shape |
| `PostHandlers.Post.Create` | services/post-service/app/domain/post.py:38-69 | refuses invalid text and empty slugs, else yields a draft with the request's title, summary, content, category and tags, without date and comments, and one `post.created` event |
| `PostHandlers.Post.Update` | services/post-service/app/domain/post.py:85-104 | stores title, summary, content, category and tags of the request, keeps the slug unless one is given, and publication, date and count; records `post.updated`; invalid text changes nothing |
| `PostHandlers.Post.Publish` | services/post-service/app/domain/post.py:109-115 | publishes a draft, keeps an earlier publication date, records one event; a published post is refused unchanged |
| `PostHandlers.Post.Unpublish` | services/post-service/app/domain/post.py:117-122 | withdraws a published post and keeps its date; a draft is refused unchanged |
| `PostHandlers.Post.SyncCommentCount` | services/post-service/app/domain/post.py:127-128 | sets the count, negative values as zero, and records no event |
| `PostHandlers.PostCommandHandler.Create` | services/post-service/app/application/commands/handlers.py:34-55 | category, text and slug errors in this order, else the request's fields under the first free slug, optional publication, one transaction and one bump; other posts stay |
| `PostHandlers.PostCommandHandler.Update` | services/post-service/app/application/commands/handlers.py:57-74 | missing post, missing category, invalid text, taken slug in this order, else the request's fields, one transaction and one bump; other posts stay |
| `PostHandlers.PostCommandHandler.Publish` | services/post-service/app/application/commands/handlers.py:76-82 | publishes in one transaction with its event and bumps once, or fails unchanged |
| `PostHandlers.PostCommandHandler.Unpublish` | services/post-service/app/application/commands/handlers.py:84-90 | withdraws in one transaction with its event and bumps once, or fails unchanged |
| `PostHandlers.PostCommandHandler.Delete` | services/post-service/app/application/commands/handlers.py:92-98 | removes the post, emits one `post.deleted` and bumps once, or fails unchanged |
| `PostHandlers.PostCommandHandler.SyncCommentCount` | services/post-service/app/application/commands/handlers.py:100-109 | sets an existing post's count and bumps; a missing post changes and bumps nothing; the outbox never grows |
| `PostHandlers.PostCommandHandler.CreateCategory` | services/post-service/app/application/commands/handlers.py:111-119 | stores a category with a new slug, or refuses a taken slug or a bad name |
| `PostHandlers.PostCommandHandler.DeleteCategory` | services/post-service/app/application/commands/handlers.py:121-130 | deletes an unused category, refuses a missing or used one |
| `PostLaws.UpdateRefusals` | services/post-service/app/application/commands/handlers.py:57-74 | an update succeeds if and only if the post and its category exist, the text is within the limits and no other post has the given slug; otherwise the first fault in this order is its error |
| `PostLaws.UpdateEffect` | services/post-service/app/domain/post.py:96-104 | a stored update shows the request's title, summary, content, category and tags, takes a slug of at most 180 characters only if one is given, keeps publication, date and count, announces the stored row and touches no other post |
| `PostLaws.LastUpdateWins` | services/post-service/app/application/commands/handlers.py:57-74 | of two updates the last one decides: the first leaves no trace but its slug, and that only if the last one gives none |
| `PostLaws.HistorySettles` | services/post-service/app/domain/post.py:85-104 | over every history stored titles and summaries stay trimmed and tags normalised |
| `PostLaws.UpdateIsUndone` | services/post-service/app/domain/post.py:85-104 | after any history an edit without a slug is undone, for the whole database, by an update with what the post held before |
| `PostLaws.CreateRefusals` | services/post-service/app/application/commands/handlers.py:34-55 | a creation succeeds if and only if its category exists, the text is within the limits and a slug comes out; otherwise the first fault in this order is its error |
| `PostLaws.CreateEffect` | services/post-service/app/domain/post.py:52-69 | a created post shows the request, has no comments, the first free slug, and is published and dated now exactly if asked for; other posts stay |
| `PostLaws.CreateEvents` | services/post-service/app/application/commands/handlers.py:37-53 | a creation announces the draft before its slug was made unique, then, if published, the stored row |
| `PostLaws.PublishEffect` | services/post-service/app/domain/post.py:109-115 | publishing succeeds exactly for a stored draft, changes state and a missing date alone, and announces the stored row |
| `PostLaws.UnpublishEffect` | services/post-service/app/domain/post.py:117-122 | withdrawing succeeds exactly for a published post, changes the state alone, and announces the stored row |
| `PostLaws.DeleteEffect` | services/post-service/app/application/commands/handlers.py:92-98 | deletion removes exactly the named post and announces its id and slug |
| `PostLaws.SyncEffect` | services/post-service/app/domain/post.py:127-128 | a count replaces the stored one, a negative one counts as zero, nothing else changes, and the last count wins |
| `PostLaws.CreateCategoryEffect` | services/post-service/app/application/commands/handlers.py:111-119 | a category is stored under its trimmed name and an unused slug of at most 80 characters, or refused for exactly one of the two |
| `PostLaws.DeleteCategoryEffect` | services/post-service/app/application/commands/handlers.py:121-130 | a category is deleted if and only if it exists and no post is in it |
| `Text.UniqueSlug` | services/post-service/app/application/commands/handlers.py:22-27 | the loop ends with the base if it is free, else with the first of base-2, base-3, ... that is not taken |
| `Text.FreeSlugIsFirst` | services/post-service/app/application/commands/handlers.py:22-27 | the search needs at most one probe more than there are taken slugs and all earlier candidates are taken |
| `Text.FreeSlugIsFirstFree` | services/post-service/app/application/commands/handlers.py:22-27 | the slug found is the base if it is free, else base-n with the smallest n from 2 on that is free |
| `Text.DecimalReadsBack` | services/post-service/app/application/commands/handlers.py:25 | the number in a candidate is written in decimal digits without leading zeros and reads back as that number |
| `Text.TrimIsCore` | services/post-service/app/domain/post.py:55-57 | trimming cuts off exactly the white space on both sides |
| `Text.TakenCandidates` | services/post-service/app/application/commands/handlers.py:22-27 | pigeonhole: that many taken candidates need that many taken slugs |
| `Text.CandidateInjective` | services/post-service/app/application/commands/handlers.py:25-26 | no two numbers give the same candidate |
| `Slug.SlugifyCanonical` | services/post-service/app/domain/value_objects.py:23-29 | every slug consists of a-z, 0-9 and single inner dashes within the limit, also after the cut |
| `Slug.SlugifyFixedIffCanonical` | services/post-service/app/domain/value_objects.py:23-29 | a text is its own slug if and only if it is canonical |
| `Slug.SlugifyIdempotent` | services/post-service/app/domain/value_objects.py:23-29 | slugifying a slug again, under the same or a larger limit, changes nothing |
| `Slug.FullSlugIsJoinedWords` | services/post-service/app/domain/value_objects.py:25-28 | the uncut slug is the words of the folded text, with `#` and `+` spelled out, joined by single dashes; `SlugIsSpelledWords` says which words |
| `SlugLaws.SlugIsSpelledWords` | services/post-service/app/domain/value_objects.py:4-28 | the uncut slug of any text of ASCII characters and Turkish letters: runs of letters, digits, `#` and `+`, in lower case, the twelve Turkish letters and `I` by their Latin letter, `#` as "sharp" and `+` as "plus", joined by single dashes |
| `SlugLaws.CaseIsIgnored` | services/post-service/app/domain/value_objects.py:26 | writing a-z in capitals never changes a slug |
| `SlugLaws.MarksAreDropped` | services/post-service/app/domain/value_objects.py:26 | any other character that decomposes into ASCII text around marks counts as that text |
| `SlugLaws.UnknownVanishes` | services/post-service/app/domain/value_objects.py:26 | any other character without a decomposition leaves no trace, not even a dash |
| `SlugLaws.SlugIsCut` | services/post-service/app/domain/value_objects.py:29 | a slug within the limit is not cut; a longer one is its prefix of exactly that length, less a dash at the cut |
| `SlugLaws.SlugExamples` | services/post-service/tests/unit/test_post_domain.py:14-16 | "Hello World" and the two titles of the unit test give the expected slugs |
| `Slug.SlugifyEmptyIff` | services/post-service/app/domain/value_objects.py:23-29 | a slug is empty if and only if the folded text has no letter, digit, `#` or `+` |
| `Slug.NormalizeTags` | services/post-service/app/domain/value_objects.py:32-38 | the loop collects the non-empty tag slugs at their first occurrence and keeps the first ten |
| `Slug.NormalizedTagsProperties` | services/post-service/app/domain/value_objects.py:32-38 | at most ten distinct, non-empty, canonical tags, each the slug of an input tag |
| `SlugLaws.TagsAreTheFirstTen` | services/post-service/app/domain/value_objects.py:32-38 | a tag is missing only if ten others, each from an earlier input tag, fill the list |
| `Slug.FirstOccurrencesOrder` | services/post-service/app/domain/value_objects.py:33-37 | tags keep the order of their first occurrence |
| `Slug.NormalizedTagsIdempotent` | services/post-service/app/domain/value_objects.py:32-38 | normalising normalised tags changes nothing |
| `CommentService.EmittedCountIsExact` | services/comment-service/app/domain/comment.py:55-73 | each moderation emits one event with the post's approved count after the commit, other posts' counts stay, the clamp never bites |
| `CommentService.ModeratedCount` | services/comment-service/app/application/handlers.py:75-91 | how approve, reject and delete change the approved count of every post |
| `CommentService.RepeatedModerationIsRefused` | services/comment-service/app/domain/comment.py:55-70 | repeating an approval, rejection or deletion is refused; rejecting after approving emits the count from before |
| `CommentService.CountAfterStore` | services/comment-service/app/infrastructure/persistence/repositories.py:54-69 | storing one comment changes a count by that comment's own contribution only |
| `CommentService.SubmitKeepsViews` | services/comment-service/app/application/handlers.py:59-73 | a submission changes no approved view and no count, so it need not bump the cache |
| `CommentService.HistoryKeepsCommentsKnown` | services/comment-service/app/application/handlers.py:110-130 | whatever post events arrive in whatever order, every comment's post is known |
| `CommentService.HistoryKeepsCommentsValid` | services/comment-service/app/domain/comment.py:32-52 | over every history stored names and texts are within their limits and no stored e-mail is empty |
| `CommentService.StepKeepsText` | services/comment-service/app/application/handlers.py:75-130 | no later step changes anything but a comment's status; only its deletion or its post's deletion removes it |
| `CommentService.BindingsAreExact` | libs/py-common/devblog_common/messaging/topology.py:16-18 | each of the two queues is bound to exactly the events that can change the receiving service's database |
| `CommentHandlers.Comment.Submit` | services/comment-service/app/domain/comment.py:32-52 | trims and validates name, text and e-mail; a valid comment is pending with one event |
| `CommentHandlers.Comment.Approve` | services/comment-service/app/domain/comment.py:55-59 | approves once with the count plus one, refuses an approved comment unchanged |
| `CommentHandlers.Comment.Reject` | services/comment-service/app/domain/comment.py:61-66 | rejects once, the count less one only if it was approved |
| `CommentHandlers.CommentCommandHandler.Submit` | services/comment-service/app/application/handlers.py:59-73 | honeypot, rate limit, unknown or unpublished post and invalid text are refused in this order; a submission succeeds if and only if none applies, and is stored as pending in one transaction without a bump |
| `CommentHandlers.CommentCommandHandler.Moderate` | services/comment-service/app/application/handlers.py:75-91 | approve, reject or delete with the exact count, one transaction and one bump, or an error unchanged |
| `CommentHandlers.CommentCommandHandler.HandlePostEvent` | services/comment-service/app/application/handlers.py:110-130 | upserts, or deletes the post with its comments; never writes an outbox row; bumps exactly for bound events |
| `CommentLaws.SubmitStoresIff` | services/comment-service/app/application/handlers.py:59-73 | a submission is stored if and only if it is no honeypot, not limited, its post is known and published, and name, text and e-mail are acceptable |
| `CommentLaws.SubmitRefusals` | services/comment-service/app/application/handlers.py:59-73 | which error a refused submission gets: the first fault in this order |
| `CommentLaws.SubmitStores` | services/comment-service/app/domain/comment.py:32-52 | what is stored: post, trimmed name and text, e-mail if given, date, pending; one event with its id, post and name; nothing else changes |
| `CommentLaws.AppearsOnPublishedPost` | services/comment-service/app/application/handlers.py:66-68 | a comment that any step brings names a post that was known and published just before |
| `CommentLaws.HistoryComments` | services/comment-service/app/application/handlers.py:59-130 | over every history each comment goes back to one accepted submission, made while its post was published, and still holds what was submitted |
| `CommentLaws.ModerationRefusals` | services/comment-service/app/application/handlers.py:75-91 | a moderation is refused exactly for a missing comment, a second approval and a second rejection |
| `CommentLaws.ModerationEffect` | services/comment-service/app/domain/comment.py:55-73 | a moderation sets the status of one comment or removes it, names it in one event, and changes nothing else |
| `CommentLaws.PostEventEffect` | services/comment-service/app/application/handlers.py:110-130 | a deletion removes the post and exactly its comments; any other bound event replaces what is known of its post and touches no comment |
| `RefreshTokens.ReachableFamilies` | services/identity-service/app/application/handlers.py:80-120 | in every reachable store each family is a chain of replacements for one user, at most its tail is unrevoked |
| `RefreshTokens.FamiliesStep` | services/identity-service/app/application/handlers.py:52-123 | every call with fresh values keeps all families linear and ids distinct |
| `RefreshTokens.RotateExtendsChain` | services/identity-service/app/domain/refresh_token.py:58-61 | a rotation revokes the tail, links it to the new token and makes that the tail |
| `RefreshTokens.ExchangeIff` | services/identity-service/app/application/handlers.py:80-108 | a refresh brings its new token if and only if the presented one is known, unrevoked and not expired and its account is active |
| `RefreshTokens.ExchangeEffect` | services/identity-service/app/application/handlers.py:104-108 | the new token takes over user and family with its own id and expiry, the presented one is revoked in its favour, no other token changes |
| `RefreshTokens.RefusalEffect` | services/identity-service/app/application/handlers.py:83-120 | a refused refresh changes nothing unless the presented token was revoked; then, and on a logout, exactly that token's family is revoked |
| `RefreshTokens.LoginEffect` | services/identity-service/app/application/handlers.py:64-72 | a login adds one unrevoked token with the given values in a family of its own |
| `RefreshTokens.AtMostOneLive` | services/identity-service/app/infrastructure/persistence/repositories.py:119-125 | a family has at most one unrevoked token |
| `RefreshTokens.ExchangedAtMostOnce` | services/identity-service/app/application/handlers.py:80-111 | over any run a token is exchanged successfully at most once |
| `RefreshTokens.ReplayAndLogoutKill` | services/identity-service/app/application/handlers.py:87-120 | a detected reuse and a logout leave the family without an unrevoked token |
| `RefreshTokens.DeadStaysDead` | services/identity-service/app/application/handlers.py:87-120 | no later call revives such a family |
| `AuthHandlers.AuthCommandHandler.Login` | services/identity-service/app/application/handlers.py:52-77 | locked, wrong password and disabled account fail without a token; only a wrong password counts, as one more than the live count for a new window; success stores a fresh family and forgets the key; other keys are untouched, and without Redis all are |
| `AuthHandlers.AuthCommandHandler.Refresh` | services/identity-service/app/application/handlers.py:80-111 | unknown, reused, expired, missing and disabled are answered in this order, each with its exact condition; reuse alone commits a revocation; success stores a token of the same user and family with the given expiry and revokes the presented one in its favour |
| `AuthHandlers.AuthCommandHandler.RevokeFamily` | services/identity-service/app/infrastructure/persistence/repositories.py:119-125 | revokes the family's unrevoked tokens and returns their number |
| `AuthHandlers.AuthCommandHandler.Logout` | services/identity-service/app/application/handlers.py:114-120 | revokes the cookie's family, or does nothing without a known cookie |
| `BrowserSession.SingleFlightNeverReuses` | frontend/src/shared/api/httpClient.ts:20-41 | without lost responses and logouts no refresh is answered with reuse; the cookie is its family's unrevoked tail, or the successful answer to exactly this cookie is on its way |
| `BrowserSession.SmoothRunKeeps` | frontend/src/shared/api/httpClient.ts:20-41 | the invariant of cookie, flight and server over every such run |
| `BrowserSession.LostResponseHarmsIff` | services/identity-service/app/application/handlers.py:87-95 | after a lost response some smooth continuation is answered with reuse if and only if the lost refresh had succeeded with the cookie still held |
| `BrowserSession.LostResponseIsReuse` | services/identity-service/app/application/handlers.py:87-95 | the same condition decides whether the very next refresh is answered with reuse |
| `BrowserSession.LogoutHarmsIff` | frontend/src/shared/auth/AuthContext.tsx:60-67 | after a logout some smooth continuation is answered with reuse if and only if the refresh in flight was sent with the revoked cookie and is not served yet or was served with success; the tab is left without cookie and access token in any case |
| `BrowserSession.LogoutKeepsInv` | services/identity-service/app/application/handlers.py:114-120 | any other logout keeps the session invariant: it revokes no login's token, no token sent and no token on its way |
| `BrowserSession.LogoutBeforeAnswerRun` | services/identity-service/app/application/handlers.py:114-120 | a run from the start: login, refresh served, logout, answer received, refresh answered as a reuse |
| `BrowserSession.LostResponseRun` | services/identity-service/app/application/handlers.py:87-95 | a run from the start: login, refresh, lost response, refresh answered as a reuse |
| `BrowserSession.LogoutRun` | services/identity-service/app/application/handlers.py:114-120 | a run from the start: login, refresh sent, logout, refresh answered as a reuse |
| `BrowserSession.SentAtMostTwice` | frontend/src/shared/api/httpClient.ts:45-61 | a request is sent at most twice, a second time exactly after a 401 and a successful refresh, never for authentication calls |
| `BrowserSession.HttpClient.RefreshAccessToken` | frontend/src/shared/api/httpClient.ts:20-41 | is the CallRefresh step of the session: a request is sent only when none is in flight, so at most one is unsettled |
| `BrowserSession.HttpClient.Settle` | frontend/src/shared/api/httpClient.ts:28-38 | is the step that receives or loses the answer: success stores the token, any error clears it, and the next caller starts a new request |
| `BrowserSession.HttpClient.TwoCallers` | frontend/src/shared/api/httpClient.ts:20-41 | two callers before the answer share one request, which carries the cookie of that moment |
| `LoginThrottle.LockedIffRecentFailures` | services/identity-service/app/infrastructure/cache/redis_stores.py:34-51 | a key is locked if and only if its last operations are at least the maximum of failures with every gap below the window |
| `LoginThrottle.LoginsLockedIff` | services/identity-service/app/application/handlers.py:52-74 | after any serial login attempts a key is locked if and only if the attempts that registered end in the maximum of recent failures |
| `LoginThrottle.LoginsAreHistory` | services/identity-service/app/application/handlers.py:52-74 | serial logins leave the counter that the history of registered operations gives |
| `LoginThrottle.CountIsRecentFailures` | services/identity-service/app/infrastructure/cache/redis_stores.py:40-46 | the counter reaches n exactly when the last n operations are recent failures |
| `LoginThrottle.CountNeverExceedsMax` | services/identity-service/app/application/handlers.py:52-62 | in serial logins the counter never exceeds the maximum |
| `LoginThrottle.LockEndsOneWindowAfterFailure` | services/identity-service/app/application/handlers.py:52-56 | a lock ends exactly one window after the last failure, whatever is attempted meanwhile |
| `LoginThrottle.RedisLoginThrottle.IsLocked` | services/identity-service/app/infrastructure/cache/redis_stores.py:34-38 | compares the live counter with the maximum; not locked without Redis |
| `LoginThrottle.RedisLoginThrottle.RegisterFailure` | services/identity-service/app/infrastructure/cache/redis_stores.py:40-47 | increments and renews the expiry of this key only |
| `LoginThrottle.RedisLoginThrottle.Reset` | services/identity-service/app/infrastructure/cache/redis_stores.py:49-51 | removes this key only |
| `RateLimiter.IntervalBound` | services/comment-service/app/infrastructure/rate_limiter.py:10-19 | any half-open interval of k windows contains at most (k + 1) times the limit of allowed requests, one less with a positive limit |
| `RateLimiter.WindowsBound` | services/comment-service/app/infrastructure/rate_limiter.py:10-19 | beyond what the running window has left, k windows allow at most k times the limit |
| `RateLimiter.WindowAllowsExactly` | services/comment-service/app/infrastructure/rate_limiter.py:10-19 | a running window allows exactly what is left of the limit |
| `RateLimiter.FreshWindowAllows` | services/comment-service/app/infrastructure/rate_limiter.py:10-19 | a new window allows exactly the smaller of requests and limit |
| `RateLimiter.EachWindowStartsAnew` | services/comment-service/app/infrastructure/rate_limiter.py:10-19 | requests in any number of successive windows: of each window exactly the first requests up to the limit are allowed, however many were refused before |
| `RateLimiter.RedisFixedWindowRateLimiter.Allow` | services/comment-service/app/infrastructure/rate_limiter.py:10-19 | increments this key, sets the expiry only on a new window, compares with the limit; allows all without Redis |
| `CacheAside.ReadsAreCoherent` | libs/py-common/devblog_common/cache.py:52-66 | under every interleaving without lost bumps a read contains every commit bumped before it saw its version; under the current version with no bump pending it equals a fresh load |
| `CacheAside.CurrentEntryMissesOnlyPending` | libs/py-common/devblog_common/cache.py:46-66 | an entry under the current version misses only commits whose bump is still to come |
| `CacheAside.StoredUntilExpired` | libs/py-common/devblog_common/cache.py:52-66 | a stored value is served to every reader of its version and key until it expires; then each must load |
| `CacheAside.RunKeeps` | libs/py-common/devblog_common/persistence/unit_of_work.py:64-71 | the invariant over every interleaving of readers, commits and after-commit bumps |
| `CacheAside.LostBumpServesStale` | libs/py-common/devblog_common/cache.py:46-50 | a run in which one lost bump makes a current hit stale although no bump is pending |
| `CacheAside.LostBumpHarmsIff` | libs/py-common/devblog_common/cache.py:46-50 | a lost bump lets a stale value be served with no bump pending if and only if no other bump is pending and a value without that commit is cached, or loaded and about to be cached, under the current version |
| `CacheAside.RedisCache.GetOrLoad` | libs/py-common/devblog_common/cache.py:52-66 | a hit is returned as stored, anything else is loaded and stored when Redis answers; the call is a run of reader steps that returns its value |
| `CacheAside.RedisCache.Bump` | libs/py-common/devblog_common/cache.py:46-50 | is the Bump step of the commit, or its BumpLost step without Redis; after a bump no stored entry can be hit |
| `CacheAside.RedisCache.ReadAfterBump` | libs/py-common/devblog_common/cache.py:46-66 | a read that follows a bump returns the database's value whatever is cached |

## Left out

- Delivery limit: the broker dead-letters a message after five returns (topology.py:14); here any return may dead-letter, so the limit's exact count is not modelled.
- Placement of a returned message inside a quorum queue and prefetching: the position is a parameter of the step; `ReturnKeepsOrderIff` says which positions matter.
- Convergence under expired marks, Redis failures of the consumer, dead-lettered messages, competing consumers or concurrent uncommitted transactions: the code does not order these cases, so orderly runs exclude them; the exact conditions for marks and dead letters are about the order of execution, the one for returned messages about convergence as well.
- ExpiredMarkKeepsOrderIff: covers a mark that expires while the consumer waits for a message, not within the few steps of handling one.
- Messages without an `event_id`, which the consumer never marks, and exceptions raised by the metrics callback after the acknowledgement.
- The third queue, `activity-worker.all-events`, whose handler only logs.
- `OutboxRelay._run`, `Backoff`, reconnects, heartbeats and thread shutdown: scheduling of the calls modelled here, with random delays.
- The `attempts` column appears in the class `OutboxRelay` only; the transition system does not need it.
- `CacheAside.RedisCache.GetOrLoad` is sequential; interleaved readers are covered by the transition system. Entry expiry is a step that may happen at any time; time-to-live values are not modelled.
- Fields that no modelled branch reads: author, cover image, reading time, description, moderation time, user agent, IP address.
- The e-mail pattern, password verification and the limiter's verdict enter the handlers as parameters; `CommentHandlers` takes the limiter's answer, `RateLimiter` models the limiter.
- The contents of the NFKD decomposition table: the theorems hold for any table.
- Column widths, collations and the order in which stored tags are read back from `post_tags`.
- FastAPI routers: whether the cookie is deleted after a failed refresh is left open in `BrowserSession.ReceiveRefresh`, so the theorems hold either way.
- Several browser tabs, which share the cookie but not the single-flight promise.
- `change_password`, password rehashing, access-token revocation, `seed_admin`, JWT and Argon2.
- Query handlers, SQL read models, statistics, pagination, metrics, logging and deployment files.
