# CollabFlow: verified models

Dafny models of the parts of CollabFlow whose correctness depends on interleaving, on history or
on two stores agreeing, with proofs about every run. `dafny verify dfyconfig.toml` checks all of it.

| File | Models |
|---|---|
| `Presence.dfy` | the Redis hash that counts a user's open connections, and its commands |
| `PresenceProtocol.dfy` | the project socket's handler, one action per `await`, with the hash, the published stream and each browser's online list; what holds in every interleaving |
| `PresenceGuarantees.dfy` | exact conditions for the count, the stream and the browsers to be right |
| `PresenceRaces.dfy` | concrete interleavings that break each guarantee without its condition |
| `PresenceRaised.dfy` | handlers that raise: exactly when a user is listed for good |
| `Registry.dfy` | the nested table of live sockets, broadcast to a project, and the stream listener |
| `PresenceDelivery.dfy` | that relaying in the presence protocol is what the table and the listener do |
| `Channels.dfy` | channel names and reading them back |
| `TaskData.dfy`, `TaskService.dfy`, `Sorting.dfy` | the task tables, their invariant, and creating, updating and deleting tasks |
| `Objects.dfy` | attachment rows against bucket objects under interleaving and crashes |
| `Listing.dfy` | walking the task forest |
| `Paging.dfy` | the filtered, sorted, paginated task list and the activity feed, and exactly when paging through them shows everything once |
| `Refresh.dfy` | the browser's shared token refresh |
| `Reconnect.dfy` | the reconnecting WebSocket hook and its backoff |
| `Slugs.dfy`, `Mentions.dfy` | unique slugs; the mention pattern, its scanner, and who is notified |
| `Board.dfy` | board columns |
| `Moves.dfy` | optimistic status moves with rollback and refetch, any number in flight |
| `Ids.dfy` | identifiers and small shared definitions |

Concurrency is modelled in two ways. The socket handlers, the attachment requests, the refreshing
client and the hook are transition systems: a run is any sequence of enabled actions, `Enabled` says
when an action can happen and `Do` what it does, and the theorems are about the state after any run.
A handler that raises or a process that crashes simply takes no further step. The client, the hook
and the board's cache are also classes whose `Valid()` says that the object is the state after the
events it has recorded, so what is proved of every run is in their methods' contracts. The socket
table and the listener are a class and methods whose `await`s take an arbitrary argument saying what
other coroutines do there.

## Findings

- **Presence is exact on a run if and only if every delete is clean** (`ExactIffCleanDeletes`): no
  `hdel` may fire while a connection of the same user is joined. It is enough that nobody joins as a
  user between a leaver's decrement and its delete (`NoJoinWhileDeletingSuffices`). PROGRESS.md:260-262
  and docs/PHASE-4.md expect the race to leave a stale zero entry; `NoStaleEntry` shows that no
  interleaving can, short of a handler raising between its two commands (`StaleEntryMeansRaised`), and
  `DeleteErasesLiveUser` shows what happens instead: a connected user disappears from the hash. In
  every interleaving the joined connections equal the stored count plus what deletes erased (`Ledger`).
- **A handler that raises between its join and its leave leaves its user listed.** A user is listed for
  good, whatever happens from here on, if and only if the stored count exceeds the connections whose
  handlers can still leave and no handler is about to delete the field (`ListedForGoodIff`). Accept,
  join, raise is such a run (`HandshakeRaises`), and so is any raise after clean deletes with no delete
  outstanding (`RaisedStaysListed`); with one outstanding the user can still be unlisted
  (`PendingDeleteUnlists`).
- **A LEFT can be published after the next session's JOINED**, and then every browser that follows the
  stream hides a connected user (`LateLeftHidesLiveUser`, `TruthfulIffTimelyLefts`).
- **A LEFT relayed between a handler's `hkeys` and its snapshot is lost**: the socket is registered
  before both, so the snapshot overwrites the newer news (`SnapshotOverwritesLeft`,
  `RightIffNotOverwritten`). The comment at ws.py:29-33 only considers the user's own JOINED.
- Outside these cases browsers converge to exactly the joined users (`BrowserConverges`).
- **Paging shows everything exactly once if and only if no group of equal sort keys straddles a page
  boundary**, for the task list (`TaskListPagesOnceIff`) and for the activity feed, which is sorted by
  creation time alone (`FeedPagesOnceIff`); otherwise two requests may settle the tie
  differently, and one task is shown twice and another never (`TieShowsTwice`).
- **A label named twice in one update**, if the ORM lets it through, is logged twice but linked once;
  from then on, and only then, the task's label history does not replay (`LabelsOwn`).
- **A task delete drops objects before it commits.** A crash in between leaves rows whose objects are
  gone (`CrashedTaskDelete`), only ever rows of the task being deleted (`OnlyTheDeletedTaskIsHurt`).
  A completed delete orphans exactly the objects of strict descendants (`OrphansAreDescendants`).
- The cap of the backoff is 30 s before jitter: delays reach just under 30.5 s (`DelayBounds`).
- **A full stop directly after a mention becomes part of the address**, so a member mentioned at the
  end of a sentence is not told (`FullStopMissesMember`). An address is read exactly if it ends where
  no address character follows (`MentionEndsWhere`, `MentionedIffWritten`).
- **Rolling back an optimistic move loses the moves begun after it, and any refetch that landed since
  it was begun.** After any run the list is right if and only if the cards on the screen are those of
  the server's latest list and for each the last move standing and the last surviving one agree
  (`RightIffLastMovesAgree`). Exactly the surviving moves stand at every moment if and only if moves
  fail last in, first out and refetches land with nothing in flight (`InStepIffOrderly`). Moves that
  all fail leave the list as it was if they fail in reverse order (`ReverseOrderRestores`), but all
  except the last on show if they fail in the order they were begun (`ForwardOrderKeepsAllButLast`).
  None of this lasts: with nothing in flight and no refetch under way the screen is always the
  server's latest list (`RightAtRest`).

## Model

| member | source | states |
|---|---|---|
| Presence.LeaveUndoesJoin | backend/app/ws/presence.py:10-26 | a leave undoes a join, whatever happens to other users' fields in between its two commands, if and only if the user's field was absent or positive before |
| Presence.PresenceHash.Leave | backend/app/ws/presence.py:21-26 | decrement, then a separate delete if the result was not positive, with any commands of others in between; the delete removes whatever the others left there |
| Presence.PresenceHash.OnlineUserIds | backend/app/ws/presence.py:29-30 | the users with a field, each once, whatever its count |
| PresenceProtocol.NeverInflated | backend/app/ws/presence.py:10-26 | in every interleaving the stored count never exceeds the joined connections, and a count that is not positive has a delete outstanding |
| PresenceProtocol.NoStaleEntry | backend/app/ws/presence.py:21-26 | with no delete outstanding every stored count is positive: no race leaves a stale zero entry |
| PresenceProtocol.ListedMeansJoined | backend/app/api/routers/ws.py:34-72 | no ghosts: with no delete outstanding, a listed user has a connection that joined and has not left, and it is a live one unless its own handler raised in this run |
| PresenceProtocol.Ledger | backend/app/ws/presence.py:10-26 | conservation in every interleaving: joined connections equal the stored count plus everything deletes erased |
| PresenceProtocol.Without | frontend/src/pages/ProjectPage.tsx:155-158 | removing a user from the online list removes exactly that user and introduces no duplicates |
| PresenceGuarantees.ExactIffCleanDeletes | backend/app/ws/presence.py:18-26 | the count equals the joined connections at every moment of a run if and only if no delete fired while the user had a joined connection |
| PresenceGuarantees.ListedIffJoined | backend/app/ws/presence.py:29-30 | on such runs, with no delete outstanding, the listed users are exactly those with a joined connection |
| PresenceGuarantees.NoJoinWhileDeletingSuffices | backend/app/ws/presence.py:21-26 | if nobody joins as a user between a leaver's decrement and its delete, every delete is clean and the count exact at every moment |
| PresenceGuarantees.SessionsAlternate | backend/app/api/routers/ws.py:45-72 | on runs with clean deletes arrivals and departures of a user strictly alternate, at most one handler owes a JOINED, and every prefix of the stream has at least as many JOINED as LEFT |
| PresenceGuarantees.TruthfulIffTimelyLefts | backend/app/api/routers/ws.py:62-72 | on such runs the last word of the stream on a settled user is always right if and only if no LEFT becomes the last word on a user who has joined again |
| PresenceGuarantees.NoJoinWhileLeavingSuffices | backend/app/api/routers/ws.py:62-72 | if nobody joins as a user whose leaver is between its decrement and its end, deletes are clean and LEFTs timely |
| PresenceGuarantees.ReplayMembers | frontend/src/pages/ProjectPage.tsx:147-159 | folding any events into an online list, a user is listed exactly if the last event about them is a JOINED, or there is none and they were listed before; no duplicates arise |
| PresenceGuarantees.OverlapTolerated | frontend/src/pages/ProjectPage.tsx:147-159 | a snapshot of the first r transitions followed by all transitions from any earlier point on gives the membership after all transitions: stale repeats are harmless |
| PresenceGuarantees.ViewsAreReplays | frontend/src/pages/ProjectPage.tsx:147-159 | in every interleaving a browser's list is its snapshot with the events relayed since folded in, without duplicates |
| PresenceGuarantees.ListingsAreCurrent | backend/app/api/routers/ws.py:34-43 | the listing a handler took stays right about a settled user until news about that user is published |
| PresenceGuarantees.RightIffNotOverwritten | backend/app/api/routers/ws.py:26-52 | a browser that has seen the whole stream is right about a settled user if and only if its snapshot did not overwrite newer news about that user |
| PresenceGuarantees.BrowserConverges | backend/app/api/routers/ws.py:26-72 | end to end: without joins racing leaves and without news between listing and snapshot, once everything owed is published and relayed the browser lists exactly the users with a joined connection, each once |
| PresenceRaces.DeleteErasesLiveUser | backend/app/ws/presence.py:21-26 | a run after which a connected user is not in the hash and nothing is outstanding |
| PresenceRaces.LateLeftHidesLiveUser | backend/app/api/routers/ws.py:62-72 | a run with clean deletes after which the stream's last word on a connected user is LEFT |
| PresenceRaces.SnapshotOverwritesLeft | backend/app/api/routers/ws.py:27-43 | a run in which no join races a leave and yet a browser ends up showing a user who has gone |
| PresenceRaised.ListedForGoodIff | backend/app/api/routers/ws.py:34-72 | a user is listed on every continuation, newcomers and further raises included, if and only if the stored count exceeds the connections whose handlers can still leave and none is about to delete the field |
| PresenceRaised.RaisedStaysListed | backend/app/api/routers/ws.py:34-54 | once a handler has raised after its join, with clean deletes so far and none outstanding, its user is listed on every continuation, no delete of the field ever fires again and the count stays exact |
| PresenceRaised.HandshakeRaises | backend/app/api/routers/ws.py:34-43 | accept, join, raise: nobody is connected and the user is listed for good |
| PresenceRaised.PendingDeleteUnlists | backend/app/api/routers/ws.py:34-72 | a run with clean deletes and a raise after a join, but a delete outstanding, after which the user can be unlisted |
| PresenceRaised.StaleEntryMeansRaised | backend/app/ws/presence.py:21-26 | a stored count that is not positive belongs to a handler between its two commands; it can stay only if that handler raised there |
| Registry.ConnectionManager.Connect | backend/app/ws/connection_manager.py:29-30 | as a set of (project, user, socket) the table gains exactly this entry, and no empty inner map or set is kept |
| Registry.ConnectionManager.Disconnect | backend/app/ws/connection_manager.py:32-43 | the table loses exactly this entry, is unchanged if it was absent, and keeps no empty inner map or set |
| Registry.ConnectionManager.OnlineUserIds | backend/app/ws/connection_manager.py:45-48 | the users with at least one socket in the project |
| Registry.ConnectionManager.Snapshot | backend/app/ws/connection_manager.py:51-60 | every entry of the project exactly once |
| Registry.ConnectionManager.SendNext | backend/app/ws/connection_manager.py:62-69 | one awaited send: it is attempted once, noted if it failed, and what others do meanwhile takes effect |
| Registry.ConnectionManager.SendAll | backend/app/ws/connection_manager.py:62-69 | every target is attempted in turn, exactly the failed ones are noted, and what others do meanwhile takes effect |
| Registry.ConnectionManager.DropAll | backend/app/ws/connection_manager.py:71-72 | the noted entries, and no others, leave the table |
| Registry.ConnectionManager.SendToProject | backend/app/ws/connection_manager.py:50-72 | whatever others do at each await, every socket of the project at the start is attempted exactly once, and afterwards the table is what the others made of it without the entries whose send failed; an entry it removed was attempted and its send failed |
| Registry.HandleMessage | backend/app/ws/redis_listener.py:37-52 | a pattern message of a recognised channel with a payload that parses attempts every socket of its project registered when it arrives, each once; an item that is not a pattern message, has no recognised channel or does not parse attempts nothing and leaves the table as others made it |
| Registry.RunListener | backend/app/ws/redis_listener.py:36-52 | this holds for every item of the subscription in order, and no failed send stops the loop |
| Registry.EachSocketInOrderOnce | backend/app/ws/redis_listener.py:36-52 | each socket is sent exactly the parseable pattern messages of its project whose broadcast found it registered, each once, in stream order |
| Registry.EachSendOnce | backend/app/ws/connection_manager.py:62-69 | the sends of all broadcasts are awaited one after the other, each with an outcome of its own |
| Registry.LastOpDecides | backend/app/ws/connection_manager.py:29-43 | of what others do to the table between two steps, the last connect or disconnect of an entry decides about it |
| PresenceDelivery.PublishedIsRelayed | backend/app/ws/events.py:57-80 | a published event, arriving on the channel named after its project, is relayed to every socket of that project registered then |
| PresenceDelivery.OthersAreSkipped | backend/app/ws/redis_listener.py:37-50 | items on a notification channel, items that are not pattern messages and payloads that do not parse reach nobody |
| PresenceDelivery.PublishedStreamCarries | backend/app/ws/redis_listener.py:36-52 | the published presence events, as they arrive on their channels, are a subscription that carries the stream |
| PresenceDelivery.SentWithoutGap | backend/app/ws/redis_listener.py:36-52 | a socket registered without a gap is sent exactly its project's messages of that stretch of the stream, each once, in order |
| PresenceDelivery.ConsecutiveInOneProject | backend/app/ws/redis_listener.py:36-52 | in a stream of one project these are consecutive positions from the first one |
| PresenceDelivery.OthersDoNotMatter | frontend/src/pages/ProjectPage.tsx:147-159 | folding a project's own events into a list gives what folding the whole stream gives |
| PresenceDelivery.ViewIsFoldOfDeliveries | backend/app/api/routers/ws.py:27-43 | the list a browser shows in the protocol is its snapshot with what the listener sent its socket after the snapshot folded in |
| Channels.UuidReadsBack | backend/app/ws/events.py:27-34 | the text of every 128-bit identifier is 36 characters, hyphens at places 8, 13, 18 and 23 and lower-case hexadecimal digits elsewhere, and reads back as that identifier |
| Channels.ReadIffSpelled | backend/app/ws/events.py:27-34 | a text is read as an identifier if and only if it is, between any braces, the identifier's 32 hexadecimal digits in either case with hyphens anywhere |
| Channels.ChannelTexts | backend/app/ws/events.py:37-50 | the two kinds of channel as Redis sees them: `project:…:events` and `user:…:notifications` around the identifier's text |
| Channels.NamesReadBack | backend/app/ws/events.py:27-54 | a channel name reads back as its identifier under its own prefix and suffix and as nothing under others |
| Channels.ListenersReadTheirOwn | backend/app/ws/events.py:37-54 | project and notification channels read back as their identifiers, and each kind as nothing for the other listener |
| Channels.NamespacesDisjoint | backend/app/ws/events.py:41-54 | no text at all is accepted as a channel of both kinds, and each listener accepts only its own prefix and suffix around an identifier's text |
| Channels.AcceptedShape | backend/app/ws/events.py:27-34 | any accepted channel text is exactly prefix, identifier text and suffix joined by colons |
| Sorting.SortAlike | backend/app/services/task_service.py:137-140 | two lists of names sort to the same list exactly when they hold the same names equally often |
| Sorting.FirstDifferenceDecides | backend/app/services/task_service.py:137-140 | names are ordered by the first code point in which they differ, a proper prefix first |
| TaskService.Service.NextPosition | backend/app/crud/task.py:37-54 | no task of the project with that status stands at this position or beyond, and one stands directly before it; 1 if there is none |
| TaskService.Service.StageCreate | backend/app/services/task_service.py:56-84 | a foreign assignee is refused before a foreign parent; otherwise the session gains just the new task, with the given project, parent and values, no labels and the next position of its column, and its one entry |
| TaskService.Service.CreateTask | backend/app/services/task_service.py:42-84 | refused for a foreign assignee or parent, leaving the committed state as it was; otherwise the one new task has the given project, parent and values and no labels, stands at the end of its column, every other row stays, the log gains one entry of its creation, and the store invariant holds |
| TaskService.SubtaskBelongs | backend/app/crud/task.py:43-57 | a task created under another descends from it and from exactly what that one descends from |
| TaskService.CreateAcceptedIff | backend/app/services/task_service.py:56-62 | exactly which creations are accepted, and with which error each other one is refused |
| TaskService.UpdateAcceptedIff | backend/app/services/task_service.py:121-141 | exactly which updates are accepted, clearing the assignee among them, and which error is reported when several things are wrong |
| TaskService.ChangesSay | backend/app/services/task_service.py:128-133 | a field is recorded exactly if it is named and differs, with the text before and the text after, `None` for null |
| TaskService.Service.ResolveLabels | backend/app/services/task_service.py:109-118 | succeeds exactly if every label exists and belongs to the project |
| TaskService.AssignFields | backend/app/services/task_service.py:129-134 | the loop assigns every named field and records exactly the differing ones with their old and new text |
| TaskService.Service.StageFields | backend/app/services/task_service.py:129-134 | the session's task takes every named value, and the differences are kept for the log |
| TaskService.Service.StageLabels | backend/app/services/task_service.py:136-141 | all labels are replaced together, each linked once, or if one cannot be resolved nothing is; the diff compares sorted names from before and after |
| TaskService.Service.StageAssignments | backend/app/services/task_service.py:129-153 | with all labels known the session holds exactly the updated state; otherwise it holds the assigned fields and nothing else |
| TaskService.Service.StageUpdate | backend/app/services/task_service.py:121-153 | the checks refuse in the order assignee, labels, flush; a foreign assignee leaves the session as it was, a foreign label leaves the fields assigned in it, and a failing flush the whole update |
| TaskService.Service.UpdateTask | backend/app/services/task_service.py:121-156 | refused for a foreign assignee, a foreign label, a null in a required column or a link the table rejects, and then the committed state is unchanged although the session was assigned to; otherwise the named fields and the labels take their new values, everything else stays, and the store invariant holds, with every label history replaying except those of tasks whose updates named a label twice |
| TaskService.Service.CollectSubtree | backend/app/models/task.py:86-91 | level by level the cascade reaches exactly the tasks whose chain of parents leads to the root |
| TaskService.Service.DropObjects | backend/app/services/task_service.py:188-190 | the bucket loses exactly the objects of the task's own attachments |
| TaskService.Service.DeleteTask | backend/app/services/task_service.py:181-201 | the committed state loses exactly the descendant closure with its comments and attachment rows and no parent dangles; the bucket loses only the root's own objects, remaining rows keep theirs, and the newly orphaned objects are exactly those of strict descendants |
| TaskService.CreateKeeps | backend/app/services/task_service.py:56-84 | creating a task keeps the forest, memberships, labels, references and the log replay of every task |
| TaskService.FieldsOwn | backend/app/services/task_service.py:129-153 | an update keeps its task's log replaying to the updated values: each old is the previous new, and the last new is the current value |
| TaskService.LabelsOwn | backend/app/services/task_service.py:136-153 | after an update its task's label history replays if and only if it did before and the update named no label twice |
| TaskService.RepeatSpoilsHistory | backend/app/services/task_service.py:136-153 | naming the one label of a task twice logs two names, leaves the one link, and ends the replay |
| TaskService.UpdateKeeps | backend/app/services/task_service.py:121-156 | an update that is not refused keeps the whole store invariant and the log replay of every task, and a label history stops replaying exactly if the update named a label of that task twice |
| TaskService.NamesTellLabels | backend/app/services/task_service.py:136-141 | since names are unique per project, comparing sorted names detects exactly a change of the set of labels or a repeated label |
| TaskService.LoggedIffChanged | backend/app/services/task_service.py:143-153 | an entry is logged exactly when a value or the set of labels really changed, or a label was named twice |
| TaskService.DeleteKeepsLog | backend/app/models/activity.py:45-49 | every log entry survives in place, with its reference cleared exactly if its task is gone, and one entry of the deletion is added that names no task |
| TaskService.DeleteKeeps | backend/app/services/task_service.py:192-201 | deleting a task keeps the store invariant, log replay of every remaining task included |
| TaskService.OrphansAreDescendants | backend/app/services/task_service.py:184-201 | after a completed delete remaining rows have their objects, and the newly orphaned objects are exactly those of strict descendants |
| TaskService.CreateKeepsPositions | backend/app/crud/task.py:37-55 | in each column a task whose status never changed comes before every task created there later |
| TaskService.UpdateKeepsPositions | backend/app/services/task_service.py:129-134 | updates keep that order |
| TaskService.DeleteKeepsPositions | backend/app/services/task_service.py:181-201 | deletions keep that order |
| Objects.UploadsAndDeletesAreSafe | backend/app/services/attachment_service.py:48-119 | through any interleaving of uploads and attachment deletes, crashed at any step, every committed row's object is in the bucket |
| Objects.SafeIffNothingDroppedEarly | backend/app/services/task_service.py:188-201 | with task deletes as well, rows have their objects if and only if no unfinished task delete has dropped the object of a row still there |
| Objects.OnlyTheDeletedTaskIsHurt | backend/app/services/task_service.py:188-201 | a row without its object belongs to the very task an unfinished delete is working on |
| Objects.CrashedTaskDelete | backend/app/services/task_service.py:188-201 | a crash between the bucket and the commit does leave a row without its object |
| Objects.UploadCompletes | backend/app/services/attachment_service.py:48-78 | whatever other requests do in between, a finished upload has its object in the bucket and, if its task is still there, exactly the row it asked for |
| Objects.DeleteCompletes | backend/app/services/attachment_service.py:105-119 | whatever other requests do in between, a finished attachment delete has removed the row and the object it pointed to |
| Objects.TaskDeleteCompletes | backend/app/services/task_service.py:188-201 | whatever other requests do in between, a finished task delete has removed every object it listed and exactly the rows of the subtree |
| Listing.EveryTaskOnce | backend/app/crud/task.py:75-110 | listing a project's top-level tasks and recursively their subtasks visits every task of the project exactly once, and no other |
| Paging.AnswersArrange | backend/app/crud/task.py:75-103 | whatever order the query comes back in, its rows are the tasks that meet the conditions, each once even under the label join, in sort order, and as many as the distinct count |
| Paging.EachFilterMeans | backend/app/crud/task.py:75-95 | each criterion restricts its own column alone, and a query selects the project's top-level tasks that satisfy all of its criteria |
| Paging.WalkPages | frontend/src/components/ActivityPanel.tsx:20-26 | the next-page loop, each page cut from an answer of its own, ends after ceil(total / page size) pages, or one if there is nothing |
| Paging.OneAnswer | backend/app/crud/task.py:97-103 | with a total tie order the sorted list is unique |
| Paging.WalkTotallyOrdered | backend/app/crud/task.py:75-103 | with a total tie order the pages together are the whole sorted list of matching tasks, however each request is answered, and `total` is its length |
| Paging.TaskListPagesOnceIff | backend/app/crud/task.py:97-103 | however requests settle ties, paging shows every matching task exactly once, if and only if no group of equal sort keys straddles a page boundary |
| Paging.TieShowsTwice | backend/app/crud/task.py:97-103 | for every tie across a page boundary there are answers that show one of its items twice and another never |
| Paging.FeedPagesOnceIff | backend/app/crud/activity.py:30-60 | the panel's loop shows every entry of a feed exactly once, however its requests settle ties, if and only if no group of entries of one creation time straddles a page boundary |
| Paging.WalkFeed | frontend/src/components/ActivityPanel.tsx:20-26 | with distinct creation times the pages together are the whole feed of the project, or of the task, by descending creation time, in ceil(total / page size) pages or one |
| Paging.CountedAreMatching | backend/app/crud/task.py:85-95 | the count query under the label join counts exactly the matching tasks |
| Refresh.ApiClient.SendRequest | frontend/src/api/client.ts:10-18 | a new request starts no refresh and disturbs no other request |
| Refresh.ApiClient.OnResponse | frontend/src/api/client.ts:43-61 | a refresh is posted exactly for a first 401 with a refresh token while every earlier refresh is settled; a request that waits, waits for the only one that is not |
| Refresh.ApiClient.OnRefreshAnswer | frontend/src/api/client.ts:35-40 | the refresh answered is the only one not settled, and no request is told yet |
| Refresh.ApiClient.OnFinally | frontend/src/api/client.ts:58-60 | the refresh that was answered is settled with that very answer and no other changes; the promise is cleared, every refresh is settled and every waiter can go on |
| Refresh.ApiClient.OnResume | frontend/src/api/client.ts:61-68 | a waiter is sent a second and last time if its refresh succeeded, else rejected without being sent again and the tokens are gone; there is one redirect per waiter told |
| Refresh.SingleFlightAlways | frontend/src/api/client.ts:24-28 | in every order of events at most one refresh is in flight, the promise is set exactly then, and no request is sent more than twice |
| Refresh.OutcomesAreFinal | frontend/src/api/client.ts:58-61 | a settled refresh's outcome never changes on any continuation |
| Refresh.OutcomesAreAnswers | frontend/src/api/client.ts:35-60 | over every run, the n-th refresh is settled as a success exactly if the server's n-th answer was one |
| Refresh.WaitsForTheNext | frontend/src/api/client.ts:57-61 | a request that waits, waits for the refresh after those finished by then, and that never changes |
| Refresh.SentAgainIffServerSaidSo | frontend/src/api/client.ts:57-68 | a waiter that is through was sent again exactly if the server's answer to its refresh, read off the events of the run, was a success |
| Refresh.WaitersShareOutcome | frontend/src/api/client.ts:57-68 | all that waited for one refresh are sent again, or all are rejected without being sent again |
| Refresh.NoExcessRefreshes | frontend/src/api/client.ts:55-60 | there are never more refreshes than requests that met a first 401 |
| Refresh.BatchBounded | frontend/src/api/client.ts:43-70 | a batch of n requests takes at most 5n answers and continuations in any order |
| Refresh.NeverStuck | frontend/src/api/client.ts:43-70 | while a request is unsettled some answer or continuation is outstanding |
| Refresh.OneRedirectPerFailure | frontend/src/api/client.ts:64-68 | exactly one redirect to the login page per waiter of a failed refresh |
| Refresh.FailureSignsOut | frontend/src/api/client.ts:51-68 | without a new sign-in the refresh token is present exactly until the first waiter learns of a failure |
| Reconnect.Hook.OnTimer | frontend/src/ws/useWebSocket.ts:53-63 | the timer that fires was the only thing pending and the handle named it; afterwards exactly one socket or one timer is, and calls of connect are at least a second apart |
| Reconnect.Hook.OnOpen | frontend/src/ws/useWebSocket.ts:65-68 | the socket that opens is the only one, no timer is pending, and the counter restarts |
| Reconnect.Hook.OnError | frontend/src/ws/useWebSocket.ts:84-86 | closing whatever the variable names closes the very socket that failed, and no timer is set |
| Reconnect.Hook.OnClose | frontend/src/ws/useWebSocket.ts:47-82 | before cleanup exactly one timer is left, the one the handle names, due after min(30000, base * 2^n) ms plus the random fraction of 500, n the closes since the last open, base 5000 after a 4401 and 1000 otherwise; after cleanup nothing is left |
| Reconnect.Hook.OnCleanUp | frontend/src/ws/useWebSocket.ts:91-95 | clearing the one handle leaves no timer pending, and closing the one socket leaves none that could open |
| Reconnect.DelayBounds | frontend/src/ws/useWebSocket.ts:47-50 | every delay is at least the ordinary backoff, at least 1000 ms and below 30500 ms |
| Reconnect.CloseWaits | frontend/src/ws/useWebSocket.ts:47-82 | the same over every run: after n closes since the last open, a close sets the one timer min(30000, base * 2^n) ms plus the jitter ahead |
| Reconnect.ExactlyOnePending | frontend/src/ws/useWebSocket.ts:42-89 | until cleanup the pending timers and unclosed sockets together number exactly one, the saved handle names the pending timer and the saved socket the unclosed one |
| Reconnect.CleanUpLeavesNothing | frontend/src/ws/useWebSocket.ts:91-95 | so cleanup leaves no timer pending and no socket that could still open |
| Reconnect.QuietAfterCleanUp | frontend/src/ws/useWebSocket.ts:78-95 | after cleanup connect is never called and no timer or socket is made again |
| Reconnect.AttemptCountsCloses | frontend/src/ws/useWebSocket.ts:47-82 | the counter equals the closes since the last open |
| Reconnect.FailuresBackOff | frontend/src/ws/useWebSocket.ts:47-60 | n closes in a row delay the next connect by at least the sum of min(30000, 1000 * 2^i) for i below n |
| Reconnect.AtMostOneCallPerSecond | frontend/src/ws/useWebSocket.ts:47-82 | any window of T ms contains at most floor(T / 1000) + 1 calls of connect |
| Slugs.SlugifyMakesSlugs | backend/app/core/slugs.py:5-7 | whatever the name, the result is lower-case letters and digits in groups joined by single hyphens |
| Slugs.FixpointIffSlug | backend/app/core/slugs.py:5-7 | the fixpoints of slugify are exactly the slugs, so it is idempotent |
| Slugs.SlugIsGroups | backend/app/core/slugs.py:5-7 | the slug is the maximal runs of letters and digits of the lower-cased name, in order, joined by single hyphens; the random token exactly if there is none |
| Slugs.SuffixedInjective | backend/app/services/organization_service.py:20-21 | different suffix numbers give different candidates |
| Slugs.UniqueOrgSlug | backend/app/services/organization_service.py:13-22 | the search ends for every finite set of taken slugs with a free one: the base, or the base with the least free number from 2 up; the result is itself a slug |
| Mentions.EngineIsSound | backend/app/core/mentions.py:6 | what a backtracking engine reports is a match of the pattern |
| Mentions.EngineIsComplete | backend/app/core/mentions.py:6 | where the pattern matches in any way, the engine reports a match |
| Mentions.NoBacktracking | backend/app/core/mentions.py:6 | for a pattern whose repetitions cannot consume what follows them, one greedy pass gives the engine's answer, and no match at the same place is longer |
| Mentions.MentionsAreLeftmostLongest | backend/app/core/mentions.py:6-12 | the matches found are longest, in order, without overlap, and every place where the pattern matches lies in one of them |
| Mentions.ScanAll | backend/app/core/mentions.py:12 | one linear pass finds all of the engine's matches |
| Mentions.KeepFirst | backend/app/core/mentions.py:11-14 | the distinct values in the order in which each was first seen |
| Mentions.ExtractMentionedEmails | backend/app/core/mentions.py:9-14 | exactly the addresses mentioned in the body, each once, in first-seen order |
| Mentions.NotifyMentions | backend/app/services/comment_service.py:19-45 | exactly the project members other than the author whose address is mentioned in the body, as spelled out there, are notified, each once |
| Mentions.MentionEndsWhere | backend/app/core/mentions.py:6 | the engine stops at a place if and only if the pattern matches up to there and no character follows that could belong to an address |
| Mentions.AddressIsSpelled | backend/app/core/mentions.py:6 | an address of the pattern is a non-empty local part of word characters, `.`, `+` and `-`, then `@`, a non-empty label of word characters and `-`, then `.`, and a non-empty rest of word characters, `.` and `-` |
| Mentions.MentionedIffWritten | backend/app/core/mentions.py:6-12 | an address is extracted if and only if it is written somewhere in the body after an `@`, in the spelled-out form, followed by nothing that could belong to it, and not inside an earlier mention |
| Mentions.ReadAtStartIff | backend/app/core/mentions.py:6 | an address at the start of a text is read exactly if the end or a character other than a word character, a hyphen or a full stop follows |
| Mentions.FullStopMissesMember | backend/app/services/comment_service.py:19-45 | a member who is told when mentioned alone is not told when a full stop follows |
| Board.ColumnsPartition | frontend/src/components/KanbanBoard.tsx:69-77 | every card is in the column of its status as often as in the list and in no other column |
| Board.ResortIsIdentity | frontend/src/components/KanbanBoard.tsx:75-77 | on a list in position order, also after an optimistic move, sorting a column again changes nothing |
| Board.ColumnOrder | frontend/src/components/KanbanBoard.tsx:75-77 | for every list: with the server's order kept a column shows its cards in list order; otherwise in position order, cards at one position in list order |
| Moves.TaskCache.OnMutate | frontend/src/pages/ProjectPage.tsx:88-98 | a refetch under way is cancelled, every copy of the card moves and everything else stays, and the context remembers the list from before |
| Moves.TaskCache.OnError | frontend/src/pages/ProjectPage.tsx:99-105 | the list is the remembered one, a refetch starts, and exactly the surviving moves show if the run has been orderly |
| Moves.TaskCache.OnFetched | frontend/src/pages/ProjectPage.tsx:103-105 | the server's list replaces what is shown, and with nothing in flight that is right whatever happened before |
| Moves.ShownIsStanding | frontend/src/pages/ProjectPage.tsx:85-106 | in every run the list shown, and every list remembered, is a list from the server with the moves applied that a bookkeeping of the events alone says are standing |
| Moves.RightIffLastMovesAgree | frontend/src/pages/ProjectPage.tsx:85-106 | after any run, refetches included, the screen shows the server's latest list with the surviving moves if and only if the cards are the same and for each the last standing and the last surviving move agree |
| Moves.InStepIffOrderly | frontend/src/pages/ProjectPage.tsx:85-106 | exactly the surviving moves stand on the server's latest list at every moment if and only if every move that fails does so after all begun later and refetches land with nothing in flight; then the screen is right |
| Moves.RightAtRest | frontend/src/pages/ProjectPage.tsx:103-105 | in every run, whenever nothing is in flight and no refetch is under way, the screen is the server's latest list and no move is missing from it |
| Moves.LandRightIff | frontend/src/pages/ProjectPage.tsx:103-105 | a refetch that lands shows the server's list alone, which is right if and only if no move in flight changes it |
| Moves.RollbackAcrossRefetch | frontend/src/pages/ProjectPage.tsx:99-105 | a move that fails after a later refetch puts back the older list with the moves that stood on it then: the refetch is undone |
| Moves.LateFailureUndoesRefetch | frontend/src/pages/ProjectPage.tsx:85-106 | a run of two moves in which the second's failure puts the successful first one back on a list from before the refetch |
| Moves.ReverseOrderRestores | frontend/src/pages/ProjectPage.tsx:99-103 | from any state, any number of moves failing in reverse order leave the list as it was |
| Moves.ForwardOrderKeepsAllButLast | frontend/src/pages/ProjectPage.tsx:99-103 | from any state, any number of moves failing in the order they were begun leave all but the last on show |
| Moves.RollbackLosesLaterMove | frontend/src/pages/ProjectPage.tsx:99-103 | when the first of two moves fails, the list from before both is put back, which is right if and only if the second changes nothing |

## Left out

- The socket handler is a transition system and not a method: its statements interleave with every other handler's at each await; the order of its own awaits is the order of the stages.
- Presence and socket table are separate transition systems; that the socket of a connection stays registered from its handshake to its disconnect is a condition of the lemma that joins them.
- Events other than JOINED and LEFT do not touch the online list and are not in the presence stream.
- The REST presence listing and its query are not modelled; they read the same hash.
- Registry.RunListener: does not model the subscription's own start and cancellation.
- Channels.UuidReadsBack: the reader accepts braces, hyphens anywhere and either case as the program's library does, but not what its integer conversion also lets through: spaces, underscores, signs, a `0x` prefix and digits outside ASCII.
- Whether a label repeated in one update is linked once or rejected by the link table is decided inside the ORM and is an argument.
- Text limits of columns, notifications, published task events and role checks around the task service are not modelled.
- Task rows keep their values at creation and a creation stamp, which stand for the row's history and creation time.
- Members, labels, comments and attachment rows may be anything consistent to begin with; the requests that add them are not modelled in the task service.
- Tasks and activity entries created or deleted between two page requests are not modelled; the search is an arbitrary condition on the title, and the sort column an arbitrary rank.
- Two creators racing for one slug, and the names' length limit, are left to the database's unique constraint.
- The text's lower-casing, the word-character class and the random slug token are arguments with the few properties used.
- Mentions: notification storage and delivery are not modelled, only who is notified.
- Access tokens themselves are not modelled; which token a repeated request carries follows the token store.
- The hook's `status` value and incoming messages are not modelled.
- Drag handling and rendering are not modelled. Cancelling a refetch and showing a move is one step, and the list's query key stays the same while moves are in flight.
- `NotificationConnectionManager`, role checks, passwords and tokens would repeat or only wrap what is here.
