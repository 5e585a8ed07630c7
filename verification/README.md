# AFP file transfer: a verified model

AFP queues reported files per destination, renames them from a template, sends them one at a time
through CDH with retries, and deletes them after a delay. Transfer queues are configured in transactions
that can be aborted. This project models the parts of the daemon that carry its hard guarantees and proves
them. `dafny verify dfyconfig.toml` checks everything.

| files | part |
|---|---|
| `transfer_protocol`, `transfer_safety`, `transfer_shutdown`, `transfer_steps`, `cdh_task` | the event loop of a destination set and its CDH object: a labelled transition system, its invariants over runs, what each code and message does, and the classes whose methods are proved to perform runs of it |
| `template_grammar`, `template_names`, `name_texts`, `rename_template` | the rename-template language and its parser, names and sequence numbers, what a name shows at each token, the template class |
| `number_reading`, `number_collisions`, `unique_names` | when the number of a name can be read back from it, two files with one name when it cannot, and which names of a run differ |
| `queue_entries`, `queue_order`, `queue_invariants`, `queue_settings`, `queue_runs`, `queue_leader`, `queue_answers`, `queue_changes`, `queue_database` | the transfer queue map: operations as functions, order of keys, agreement and cap under creation, removal and setting, over runs, the leader, each answer and each changed entry, the database class |
| `destination_differ`, `ccb_undo`, `ccb_listing`, `ccb_merge`, `ccb_abort`, `ccb_abort_queue`, `ccb_abort_modify`, `ccb_parameters`, `command_handler` | configuration transactions: the search for the changed destination set, the undo log, merging of parameters and what reaches the queue, abort as an inverse, the handler class |
| `event_filter` | the filter on destination set notifications |
| `file_expiry`, `expiry_thread` | when a file may go, the delete map, removal of shared source files |
| `timestamps` | time stamps, their sequence number, the order of files |
| `answer_fragments` | list answers in buffers of 64000 characters |
| `text`, `numbers`, `options` | string order and decimal formats, division, optional values |

A class with its methods stands where the source updates fields; each method is proved equal to a function
of the old state, and the properties are lemmas about those functions and their runs. What comes from outside
(CDH, the clock, the file system, IMM, the session) is a parameter: an answer, a reading, or a label of a step.

## Assumptions of the transfer part

The no-lost-wakeup invariant is proved under `TransferProtocol.Assumed`: a completion event belongs to an
outstanding task; a stop is answered OK exactly when a task is outstanding, and cancels it; no stop reaches
the transfer while its CDHFINISHED is queued; the destination set reports no server loss. Lemmas say exactly
when the invariant survives without the last two. Shutdown, retry and file-queue results use none of them.
A message is accepted by the manage queue within its five attempts.

## What the proofs show about the code

Where a promise does not hold of the code, the condition under which it does is proved.

- A stop request that finds a CDHFINISHED queued adds a second one, which ends the next transfer early: two
  files can be at CDH at once (`StopKeepsExactly`, `StopRaceSendsTwo`).
- A file CDH refuses at once ends as failed only when the stop set is empty (`RefusedFileState`).
- A file in transfer when the CDH server is lost is sent again when the loss is reported for the destination set
  (`LostServerResends`); when it is reported for the file, the file is marked failed first and the resend finds it
  in that state (`LostServerFails`).
- A name made without committing its number is followed by one with the same number (`UncommittedRepeats`). A
  transient number starts again with every new template object, so a committed name can come back
  (`RebuiltNameRepeats`); it does so exactly for names that came equally late in their objects, up to whole
  periods (`TransientNamesDiffer`).
- Two numbers can give one name when file size and original name stand on both sides of the number with nothing
  but digits between, or when a number of no fixed width can be read at two places next to one of them, and in no
  other template without a blade id (`Clash`, `ReadableExactly`). A name tag with a character that is not a digit
  between the size, or the original name, and a number of fixed width keeps them apart. Right beside a size or a
  name a single `n` always clashes (`AdjacentClashes`).
- The comparison of a new destination with its queue looks for the part of the name after the last slash, the
  entry keeps the whole name. Agreement is kept exactly when the new attributes fit the queue of the whole name
  (`CreateAgreesExactly`); under every name with a slash two accepted creations can differ (`SlashNameDisagrees`).
  No request carries such a name: the API and the callbacks of the configuration model refuse the character
  (checkTqName, aes_afp_apiinternal.cpp:1507-1538; aes_afp_command_handler.cpp:248 and 562), so this is about the
  database called without them.
- A setting for all destinations that one of them refuses leaves those before it changed and those behind it
  unchanged (`HalfSet`); its queue still agrees exactly when there are none on one side or the new values are the
  old ones (`SetAllAgreesExactly`). A setting for one destination parts it from the others unless it changes none
  of the common values (`SetOneAgreesExactly`).
- A removal that meets protected entries can leave a queue without a leader; files are then given to the
  destinations under the empty name (`SweepKeepsLeaderExactly`, `SendsOneName`). So can removing one
  destination when persist.nr cannot be opened, and a removal that fails after the hand-over leaves two leaders
  (`RemovalKeepsLeaderExactly`). A persist.nr that can be opened but has no number hands 0 on
  (`NumberHandedOver`).
- When only some destinations of a queue rename, all are given the file under the name that the last deciding one
  leaves (`SentUnder`).
- sendFile answers for its last destination: a file that an earlier one rejected is reported as sent
  (`SendAnswersLast`).
- Aborting a creation removes every entry of the name that can be removed, also those from before
  (`CreateAborted`, `CreateAbortedFreely`). A creation that fails at its second destination leaves the first one,
  and one that fails later leaves all when another function refers to the queue (`HalfCreated`, `HalfCreatedNew`).
- Deletion and parameter changes log the attributes of the first entry only: destinations that differed from
  it come back with its parameters (`DeleteAborted`, `ModifyAborted`). Aborting a parameter change leaves the
  new rename type and template object in place (`ModifyAborted`, `AbortLeavesTemplate`). A parameter change that
  fails at one destination forgets its log, and the destinations before it keep the change (`HalfModified`).
- The search for other users of a source file compares the directories of queues, so a listed file that records
  another directory can lose its source (`SourcesSparedExactly`, `ForeignSourceLost`).
- Notifications are looked up in the map by queue name, whose keys also carry the destination set, so none is
  ever found for a plain name (`NeverFound`); the filter itself is correct (`NotificationsAlternate`).
- From 35791395 minutes on, 60 times the remove delay wraps to a negative number and the file is ready before
  its time (`NeverEarlyExactly`).
- Stamps repeat when one second has more than 1000 of them (`StampsIncreaseExactly`).

The source says of `RetainPersistantNumber` that it promotes the first transfer queue in the map; it promotes the
first entry of the queue that does not lead (aes_afp_database_fd.cpp:3845-3889). The comment above the cap on
destinations says 20, the constant is 32 (aes_afp_database_fd.cpp:2807). The code is followed in both cases.

## Model

| member | source | states |
|---|---|---|
| TransferSafety.NoLostWakeup | afp_cnz/afpadm_caa/src/aes_afp_cdhtask.cpp:128-165 | in every legal run: at most one task at CDH, a resend belongs to a file in transfer, fileInTransfer_ has a task, a queued message or a due resend behind it, the untimed wait waits for an outstanding task, and no file is taken while one is outstanding |
| TransferSafety.RetryCounterBounded | afp_cnz/afpadm_caa/src/aes_afp_destination.cpp:217-347 | in every legal run the retry counter stays within the limit of the current file and is 0 when the next file is taken |
| TransferSafety.StopKeepsExactly | afp_cnz/afpadm_caa/src/aes_afp_destination.cpp:611-650 | a stop that reaches the transfer keeps the invariant iff no CDHFINISHED is queued or the destination is shut down |
| TransferSafety.ServerLossKeepsExactly | afp_cnz/afpadm_caa/src/aes_afp_destination.cpp:657-730 | a server loss reported for the destination set keeps it iff the destination is shut down or the current file waits to be sent again |
| TransferSafety.StopRaceSendsTwo | afp_cnz/afpadm_caa/src/aes_afp_cdhtask.cpp:344-410 | a concrete possible run after which two tasks are outstanding |
| TransferShutdown.ShutdownSafe | afp_cnz/afpadm_caa/src/aes_afp_cdhtask.cpp:443-489 | in every possible run, after HANGUP was handled the loop has stopped, or it does not wait and a CDHFINISHED is queued |
| TransferShutdown.ShutdownEnds | afp_cnz/afpadm_caa/src/aes_afp_cdhtask.cpp:226-285 | after HANGUP no file is offered to CDH, and the loop stops within the weighted number of messages ahead of the CDHFINISHED, CDHREOPEN counting double |
| TransferShutdown.RetryBound | afp_cnz/afpadm_caa/src/aes_afp_destination.cpp:159-178 | in every possible run whose files are limited to at most N retries, refused offers, stops and changes of file included, at most N CDHSENDRETRY lie between two CDHFINISHED, and the counter stays in 0..N and is, until HANGUP, the number since the last CDHFINISHED |
| TransferShutdown.RetryCycle | afp_cnz/afpadm_caa/src/aes_afp_destination.cpp:217-347 | k retryable events in a row: exactly every (N+1)-th marks the file failed, the counter and the messages are given in closed form |
| TransferShutdown.UnlimitedRetries | afp_cnz/afpadm_caa/src/aes_afp_destination.cpp:217-347 | with limit -1 retryable events never fail the file |
| TransferShutdown.RefusedFileState | afp_cnz/afpadm_caa/src/aes_afp_cdhtask.cpp:581-628 | the last state of a file refused at once is failed iff the stop set was empty |
| TransferShutdown.FilesConserved | afp_cnz/afpadm_caa/src/aes_afp_cdhtask.cpp:559-628 | in every possible run each queued file is still queued or was taken once, in order unless CDHRESEND put one back, and every dropped file used up a stop request for its path |
| TransferShutdown.StopAllEmpties | afp_cnz/afpadm_caa/src/aes_afp_cdhtask.cpp:657-700 | CDHSTOPSENDALL leaves the file queue empty and takes each file out unsent, in order |
| TransferSteps.FileMarked | afp_cnz/afpadm_caa/src/aes_afp_destination.cpp:90-440 | code by code: a file CDH has, or has already, is marked for deletion, the seven retryable codes mark it failed only without retries left, the other errors at once, the rest not at all |
| TransferSteps.FileAnswered | afp_cnz/afpadm_caa/src/aes_afp_destination.cpp:90-440 | code by code which messages go out: CDHSENDRETRY for exactly the seven retryable codes while retries are left, CDHFINISHED, CDHREOPEN after a lost server, CDHSTOPPED, or nothing; how the counter and the task change |
| TransferSteps.SetAnswered | afp_cnz/afpadm_caa/src/aes_afp_destination.cpp:657-730 | events of the destination set never mark the file; only a lost server ends its transfer |
| TransferSteps.RetrySends | afp_cnz/afpadm_caa/src/aes_afp_cdhtask.cpp:482-489 | after a retryable error with retries left the loop offers the same file once more, unmarked, and is in transfer again |
| TransferSteps.LostServerResends | afp_cnz/afpadm_caa/src/aes_afp_cdhtask.cpp:344-410 | server loss reported for the destination set, good answers: the loop reopens, attaches, resends, and takes the same file again |
| TransferSteps.LostServerFails | afp_cnz/afpadm_caa/src/aes_afp_destination.cpp:90-440 | server loss reported for the file: it is marked failed, and not sent again unless it is set to sending meanwhile |
| TransferSteps.StopRequested | afp_cnz/afpadm_caa/src/aes_afp_cdhtask.cpp:411-430 | a stop request reaches CDH iff it names the file in transfer, any other path is remembered |
| TransferSteps.StoppedInQueue | afp_cnz/afpadm_caa/src/aes_afp_cdhtask.cpp:559-628 | a queued file named by a stop request is dropped unsent when its turn comes, which uses the request up |
| TransferSteps.HungUp | afp_cnz/afpadm_caa/src/aes_afp_cdhtask.cpp:443-468 | HANGUP ends the loop and closes the file queue, unless a file is in transfer and CDH accepts the stop |
| TransferSteps.FileTaken | afp_cnz/afpadm_caa/src/aes_afp_cdhtask.cpp:559-628 | the head of the file queue is dropped if a stop names it, else offered and marked as sent |
| TransferSteps.Reopened | afp_cnz/afpadm_caa/src/aes_afp_cdhtask.cpp:344-383 | CDHREOPEN leads to CDHREATTACH when CDH opens, to another CDHREOPEN when not, and to HANGUP ahead of everything when the program stops |
| TransferSteps.Reattached | afp_cnz/afpadm_caa/src/aes_afp_cdhtask.cpp:384-410 | CDHREATTACH leads to CDHRESEND, or to another CDHREATTACH |
| TransferSteps.PutBackAgain | afp_cnz/afpadm_caa/src/aes_afp_cdhtask.cpp:286-343 | CDHRESEND puts the current file at the head of the queue iff it is still in state sending and the queue is open |
| TransferSteps.AllStopped | afp_cnz/afpadm_caa/src/aes_afp_cdhtask.cpp:431-442 | CDHSTOPSENDALL empties the file queue and ends the transfer in progress, if any; stop requests stay |
| CdhTask.CdhTask.Svc | afp_cnz/afpadm_caa/src/aes_afp_cdhtask.cpp:128-165 | every execution of the loop over a script of outside actions, before a turn and between its two handlers, is a possible run of the protocol and ends in its state |
| CdhTask.CdhTask.HandleMessage | afp_cnz/afpadm_caa/src/aes_afp_cdhtask.cpp:215-555 | the switch on the manage message changes the objects as the protocol step says |
| CdhTask.CdhTask.HandleFileQueue | afp_cnz/afpadm_caa/src/aes_afp_cdhtask.cpp:559-628 | taking a file, with its search in the stop set, is the protocol's steps |
| CdhTask.Destination.EventSendFile | afp_cnz/afpadm_caa/src/aes_afp_destination.cpp:90-440 | the callback emits messages, marks and counts as the protocol's event does |
| CdhTask.Destination.SendMessage | afp_cnz/afpadm_caa/src/aes_afp_destination.cpp:529-580 | up to five attempts to enqueue; succeeds iff shutdown has begun, when the message is dropped, or fewer than five are refused; a lost message changes nothing but the retry counter, which CDHFINISHED clears either way |
| TemplateGrammar.ParseIsInverse | afp_cnz/afpadm_caa/src/aes_afp_template.cpp:162-577 | a template is accepted with token list ts iff ts is well formed for the name tag and spells it |
| TemplateGrammar.SpellingInjective | afp_cnz/afpadm_caa/src/aes_afp_template.cpp:162-577 | no template text has two readings |
| NameTexts.AcceptedTemplates | afp_cnz/afpadm_caa/src/aes_afp_template.cpp:162-577 | acceptance spelled out: at most one year and one number, no other token twice but the name tag, 1, 4, 6 or 8 number letters, blade ids only where allowed, as many name tags as the tag has parts |
| NameTexts.LettersMean | afp_cnz/afpadm_caa/src/aes_afp_template.cpp:162-577 | the spelling of each token, letter by letter |
| NameTexts.NameSpelled | afp_cnz/afpadm_caa/src/aes_afp_template.cpp:743-1042 | a name is the concatenation of one text per token; read back as decimals these are the fields of the local time (yy: year minus 2000, mm: month from 1), the number and the size, or they are the original name, the tag part, the blade id |
| NameTexts.FieldAtColumn | afp_cnz/afpadm_caa/src/aes_afp_template.cpp:743-1042 | behind tokens of fixed width the text that reads so stands at the column the widths give |
| NameTexts.LargestNumbers | afp_cnz/afpadm_caa/src/aes_afp_template.cpp:780-916 | numbers go up to 9999 for 1 and 4 letters, 999999 for 6, 99999999 for 8 |
| NameTexts.FailedCommits | afp_cnz/afpadm_caa/src/aes_afp_template.cpp:1056-1080 | a commit that cannot open persist.nr leaves the old number for the next object, one that cannot write it makes the next object start again |
| RenameTemplate.Template.SetTemplate | afp_cnz/afpadm_caa/src/aes_afp_template.cpp:162-577 | the index-jumping scanner accepts exactly what the parser accepts, with its three result codes, and its token vector spells the input |
| RenameTemplate.Template.CreateFileName | afp_cnz/afpadm_caa/src/aes_afp_template.cpp:674-1000 | the name is the rendering of the token vector with the next number, and only the number's counter moves |
| RenameTemplate.Template.CommitPersNr | afp_cnz/afpadm_caa/src/aes_afp_template.cpp:1056-1080 | persist.nr gets the number exactly when the template has a p token and the file can be written; when it can only be opened it is left empty |
| TemplateNames.NumbersFromStart | afp_cnz/afpadm_caa/src/aes_afp_template.cpp:780-916 | over restarts at any point the k-th number of a committed run is s + k mod (top+1-s), inside s..top, without gap or repeat within a period; startup -1 behaves as 0 |
| TemplateNames.NumbersContinue | afp_cnz/afpadm_caa/src/aes_afp_template.cpp:71-142 | the same from any number found in persist.nr, also below the startup number or above the top: the count climbs from there to the top and then runs in s..top, without gap or repeat |
| TemplateNames.UncommittedRepeats | afp_cnz/afpadm_caa/src/aes_afp_template.cpp:1056-1080 | two names without a commit between them use one number iff persist.nr is readable or the period is 1 |
| TemplateNames.TransientRepeatsExactly | afp_cnz/afpadm_caa/src/aes_afp_template.cpp:71-83 | two names of a run get one transient number iff their objects had given equally many names before them, modulo the period |
| NumberReading.NumberReads | afp_cnz/afpadm_caa/src/aes_afp_template.cpp:743-1000 | an accepted template without blade id that does not clash gives different names to different numbers that fit, whatever the files and the dates are |
| NumberCollisions.ClashCollides | afp_cnz/afpadm_caa/src/aes_afp_template.cpp:743-1000 | every template that clashes gives one name to two different numbers that fit, for two files with digits only in their names |
| NumberCollisions.ReadableExactly | afp_cnz/afpadm_caa/src/aes_afp_template.cpp:743-1000 | so numbers can be read back iff the tokens and the name tag do not clash |
| NumberCollisions.AdjacentClashes | afp_cnz/afpadm_caa/src/aes_afp_template.cpp:743-1000 | a number of no fixed width right beside a size or an original name clashes |
| NumberCollisions.BladeCollides | afp_cnz/afpadm_caa/src/aes_afp_template.cpp:1001-1042 | with a blade id a template gives one name to two numbers whenever it clashes without it |
| UniqueNames.PersistentNamesDiffer | afp_cnz/afpadm_caa/src/aes_afp_template.cpp:743-1000 | for p, over commits and restarts, from any number found: names less than a period apart differ pairwise, whatever the files and the dates |
| UniqueNames.TransientNamesDiffer | afp_cnz/afpadm_caa/src/aes_afp_template.cpp:743-1000 | for n, two names of any run differ for all files and dates unless they came equally late in their objects modulo the period; then they are equal for one file |
| UniqueNames.OneObjectsNamesDiffer | afp_cnz/afpadm_caa/src/aes_afp_template.cpp:743-1000 | for n, without a rebuilt object, names less than a period apart differ |
| UniqueNames.RebuiltNameRepeats | afp_cnz/afpadm_caa/src/aes_afp_template.cpp:71-83 | template nnnn: name, commit, rebuild, name gives one name twice |
| QueueRuns.RunAgrees | afp_cnz/afpadm_caa/src/aes_afp_database_fd.cpp:2806-2899 | creations and removals, failing or not, and all settings that meet their condition keep agreement of rename type, template, name tag, startup number and source directory, the cap of 32, key order and matching template objects |
| QueueRuns.SetKeepsExactly | afp_cnz/afpadm_caa/src/aes_afp_database_fd.cpp:1770-1860 | a setting of all destinations or of one, complete or stopped part-way, keeps that table iff it meets the condition, which the entries show before the call |
| QueueSettings.SetAllAgreesExactly | afp_cnz/afpadm_caa/src/aes_afp_database_fd.cpp:1803-1821 | after a setting of all destinations each queue agrees iff none refuses, or the first that refuses untouched has none of its queue before it, or the first that refuses after a rewriting or the loss of its template has none behind it, or the common values do not change |
| QueueSettings.SetOneAgreesExactly | afp_cnz/afpadm_caa/src/aes_afp_database_fd.cpp:1822-1850 | after a setting of one destination its queue agrees iff it has no other, nothing was rewritten, or the common values do not change |
| QueueSettings.HalfSet | afp_cnz/afpadm_caa/src/aes_afp_transferqueue.cpp:2347-2403 | two destinations, the second with a transfer in progress: the setting is refused with TQISOPEN and the queue disagrees |
| QueueInvariants.CreateAgreesExactly | afp_cnz/afpadm_caa/src/aes_afp_database_fd.cpp:2782-2899 | for every name, a creation keeps the agreement of the entries iff it is refused, or the new attributes, completed from the queue of the name after the last slash, fit the first entry of the queue of the whole name |
| QueueInvariants.SlashNameDisagrees | afp_cnz/afpadm_caa/src/aes_afp_database_fd.cpp:2782-2795 | under every name with a slash and for any two destinations, two accepted creations whose startup numbers differ |
| QueueSettings.SetAllKeeps | afp_cnz/afpadm_caa/src/aes_afp_transferqueue.cpp:2334-2418 | a successful setting for all destinations keeps the table when its flag covers the change |
| QueueLeader.DatabaseInvariants | afp_cnz/afpadm_caa/src/aes_afp_database_fd.cpp:2934-2944 | from an empty database, in every run of operations that meet their conditions, succeeding or not, each defined queue has exactly one leader, entries agree and the cap holds |
| QueueLeader.RemovalKeepsLeaderExactly | afp_cnz/afpadm_caa/src/aes_afp_database_fd.cpp:518-556 | removing a destination set leaves one leader iff it is not found, follows, or has no follower, or its persist.nr can be opened, the new leader's written and the entry removed, or its persist.nr cannot be opened and the entry refuses |
| QueueLeader.NumberHandedOver | afp_cnz/afpadm_caa/src/aes_afp_database_fd.cpp:518-545 | the new leader has the persistent number of the removed one, and 0 when its opened persist.nr has none |
| QueueLeader.SweepKeepsLeaderExactly | afp_cnz/afpadm_caa/src/aes_afp_database_fd.cpp:104-151 | removing a queue, up to its end or to an error, leaves one leader iff every entry goes or the leader is protected or not before the first error |
| QueueLeader.SendsOneName | afp_cnz/afpadm_caa/src/aes_afp_database_fd.cpp:2962-3040 | with local rename and no manual entries a file is renamed exactly once, by the leader, and every destination gets that name; without a leader nobody renames it |
| QueueLeader.SendAnswersLast | afp_cnz/afpadm_caa/src/aes_afp_database_fd.cpp:3011-3036 | sendFile answers OK iff the queue has a destination and every one that rejects the file is followed by one that accepts it |
| QueueAnswers.RefusedFirst | afp_cnz/afpadm_caa/src/aes_afp_database_fd.cpp:2797-2830 | a creation answers PROCORDEREXIST iff the key is taken, and TOOMANYTQ iff it is free and the destination has 32 queues |
| QueueAnswers.RefusedForAttributes | afp_cnz/afpadm_caa/src/aes_afp_database_fd.cpp:2832-2899 | otherwise which of the five comparisons with the first entry fails first decides the error |
| QueueAnswers.RefusedByInit | afp_cnz/afpadm_caa/src/aes_afp_database_fd.cpp:2900-2957 | the first entry of a queue is refused by init iff a step of it fails or the parser does not accept the template for its name tag |
| QueueAnswers.CreatedEntry | afp_cnz/afpadm_caa/src/aes_afp_database_fd.cpp:2764-2957 | an accepted creation adds one entry in key order, with the attributes given, missing directory and tag from the first entry, follower iff the queue had one |
| QueueAnswers.RemovalAnswers | afp_cnz/afpadm_caa/src/aes_afp_database_fd.cpp:82-160 | each answer of removeTransferQueue, iff over the entries of the queue |
| QueueAnswers.DestRemovalAnswers | afp_cnz/afpadm_caa/src/aes_afp_database_fd.cpp:485-589 | each answer of removeDestinationSet, iff |
| QueueAnswers.SettingAnswers | afp_cnz/afpadm_caa/src/aes_afp_transferqueue.cpp:2334-2418 | each answer of setAttributes, iff |
| QueueAnswers.LookupAnswers | afp_cnz/afpadm_caa/src/aes_afp_database_fd.cpp:1691-1764 | each answer of getTransferQueueAttributes, iff, and the entry it finds |
| QueueAnswers.SentUnder | afp_cnz/afpadm_caa/src/aes_afp_database_fd.cpp:2962-3040 | for any mix of rename types every destination that is not manual is given the file under one name: that of the last entry that decides, which is the file's own for one that does not rename and the next name of the first leader otherwise; only that leader is asked for a name |
| QueueAnswers.SentAsItIs | afp_cnz/afpadm_caa/src/aes_afp_database_fd.cpp:3002-3005 | without local rename nobody renames and every destination is given the file's own name |
| QueueChanges.SweptUpTo | afp_cnz/afpadm_caa/src/aes_afp_database_fd.cpp:82-160 | removing a queue leaves exactly the other entries, the protected ones, and everything from the first error on, in order |
| QueueChanges.DestRemoved | afp_cnz/afpadm_caa/src/aes_afp_database_fd.cpp:485-589 | removing a destination makes the first follower lead, with the number of a leader whose persist.nr can be opened, changes no other entry, and takes out just its own, or none when it fails |
| QueueChanges.EntryAfterSetting | afp_cnz/afpadm_caa/src/aes_afp_transferqueue.cpp:2334-2418 | an entry after a setting, field by field, for each way it can end |
| QueueChanges.QueueAfterSetting | afp_cnz/afpadm_caa/src/aes_afp_database_fd.cpp:1803-1821 | a setting for all destinations sets exactly the entries up to and including the first that fails |
| QueueDatabase.Database.CreateTransferQueue | afp_cnz/afpadm_caa/src/aes_afp_database_fd.cpp:2764-2957 | the map and the error after a creation: key, cap, comparison with the first entry, follower flag |
| QueueDatabase.Database.RemoveTransferQueue | afp_cnz/afpadm_caa/src/aes_afp_database_fd.cpp:82-160 | the loop that starts again after each erasure ends, removes the unprotected entries of the name up to an error and no others, and reports the worst answer |
| QueueDatabase.Database.RemoveDestinationSet | afp_cnz/afpadm_caa/src/aes_afp_database_fd.cpp:485-589 | hand-over, with 0 from a persist.nr without a number, removal and the five errors |
| QueueDatabase.Database.RetainPersistantNumber | afp_cnz/afpadm_caa/src/aes_afp_database_fd.cpp:3851-3889 | the first follower leads and gets the number; fails iff there is one and its file cannot be written |
| QueueDatabase.Database.SetTransferQueueAttributes | afp_cnz/afpadm_caa/src/aes_afp_database_fd.cpp:1770-1860 | one destination, or all in key order up to the first failure, with the error |
| QueueDatabase.Database.SendFile | afp_cnz/afpadm_caa/src/aes_afp_database_fd.cpp:2962-3040 | the two passes: who renames, what each destination is given, and the result from the error the destinations leave |
| QueueDatabase.Database.GetTransferQueueAttributes | afp_cnz/afpadm_caa/src/aes_afp_database_fd.cpp:1691-1764 | the first entry of the queue, or the one with the key, and the three errors |
| DestinationDiffer.FindExtra | afp_cnz/afpadm_caa/src/aes_afp_command_handler.cpp:1682-1708 | on sorted lists of non-empty names it gives x iff the larger list is the smaller plus x, and fails iff there is no such x |
| DestinationDiffer.Difference | afp_cnz/afpadm_caa/src/aes_afp_command_handler.cpp:1578-1622 | the classification of a changed list as one added, one removed, replaced, empty or several |
| CcbAbort.AddDestAborted | afp_cnz/afpadm_caa/src/aes_afp_command_handler.cpp:2380-2383 | abort takes an added destination away again iff it is idle and lets itself be removed |
| CcbAbort.DropDestAborted | afp_cnz/afpadm_caa/src/aes_afp_command_handler.cpp:2393-2396 | abort brings a removed destination back with its own attributes iff it can be set up and had the type of the modified attribute |
| CcbAbortQueue.CreateAborted | afp_cnz/afpadm_caa/src/aes_afp_command_handler.cpp:2372-2378 | abort of a creation restores the listing iff the removal of the queue takes the new entries and no others |
| CcbAbortQueue.CreateAbortedFreely | afp_cnz/afpadm_caa/src/aes_afp_command_handler.cpp:2372-2378 | so, when every entry lets itself be removed, iff the name was new, and the entries of all other queues stay |
| CcbAbortQueue.HalfCreated | afp_cnz/afpadm_caa/src/aes_afp_command_handler.cpp:1959-1982 | a creation that fails leaves the listing as it was iff the first destination is refused, or the second is accepted and the removal of the queue takes the new entries and no others |
| CcbAbortQueue.HalfCreatedNew | afp_cnz/afpadm_caa/src/aes_afp_command_handler.cpp:1959-1982 | for a new name iff the first destination is refused, or the second is accepted and no other function refers to the queue |
| CcbAbortQueue.DeleteHealed | afp_cnz/afpadm_caa/src/aes_afp_command_handler.cpp:2385-2391 | however far a deletion got, the replayed log gives every removed destination back with the attributes of the first and its own type when these can be set up, and none otherwise, and leaves the others |
| CcbAbortQueue.DeleteAborted | afp_cnz/afpadm_caa/src/aes_afp_command_handler.cpp:1018-1069 | so the listing is restored iff the removed destinations had the attributes of the first and can be set up again |
| CcbAbortModify.SetEachIsSetAll | afp_cnz/afpadm_caa/src/aes_afp_command_handler.cpp:2283-2326 | setting destination by destination equals setting all at once, and stops at the same failure |
| CcbAbortModify.HalfModified | afp_cnz/afpadm_caa/src/aes_afp_command_handler.cpp:2305-2318 | a parameter change that fails at a destination leaves nothing to abort, and the listing is as before iff the destinations set until then already had the values |
| CcbAbortModify.ModifyAborted | afp_cnz/afpadm_caa/src/aes_afp_command_handler.cpp:2398-2404 | abort of changed parameters, completed or stopped by a refused default status, restores the listing iff each destination set had the parameters of the first and kept its rename type, or, when its record cannot be opened, was not altered |
| CcbAbortModify.AbortLeavesTemplate | afp_cnz/afpadm_caa/src/aes_afp_transferqueue.cpp:2347-2403 | after the abort the template object is the one the record describes iff the change kept it or rebuilt it from the same template, name tag and startup number, or the record keeps the change too |
| CcbMerge.MergeCovers | afp_cnz/afpadm_caa/src/aes_afp_command_handler.cpp:2067-2188 | merged parameters differ from those of any destination in template, name tag or startup number only when the change flag says so |
| CcbMerge.CompletedChangeKeeps | afp_cnz/afpadm_caa/src/aes_afp_command_handler.cpp:2020-2338 | a completed change of parameters keeps agreement, cap and template objects |
| CcbMerge.SecondTagMerged | afp_cnz/afpadm_caa/src/aes_afp_command_handler.cpp:2080-2106 | changing the second part of a name tag keeps the first, iff the second is not dropped from a first part with an asterisk |
| CcbMerge.FirstTagMerged | afp_cnz/afpadm_caa/src/aes_afp_command_handler.cpp:2126-2150 | changing the first part keeps the second |
| CcbParameters.ParamsAnswer | afp_cnz/afpadm_caa/src/aes_afp_command_handler.cpp:2020-2338 | complete succeeds iff the parameters are valid and each destination takes the change: its default status is accepted, its record can be written, and where names are concerned no transfer is in progress and the template is accepted |
| CcbParameters.ParamsReach | afp_cnz/afpadm_caa/src/aes_afp_command_handler.cpp:2153-2182 | then every entry of the queue has each parameter as given, or the first entry's old one if not given, the name tag by its parts, rename type and template object to match; other queues are as before |
| CcbParameters.NoTagToExtend | afp_cnz/afpadm_caa/src/aes_afp_command_handler.cpp:2080-2106 | the second part of a name tag for a queue without a name tag: refused, nothing changes |
| CcbParameters.AddedLine | afp_cnz/afpadm_caa/src/aes_afp_command_handler.cpp:1800-1930 | an added destination is one new line with the attributes of the first entry and the type given |
| CommandHandler.Handler.Abort | afp_cnz/afpadm_caa/src/aes_afp_command_handler.cpp:2346-2427 | the log is replayed to its end whatever the steps answer, and forgotten |
| CommandHandler.Handler.Deleted | afp_cnz/afpadm_caa/src/aes_afp_command_handler.cpp:910-1078 | the log is written before the removal and kept when it fails |
| CommandHandler.Handler.Modify | afp_cnz/afpadm_caa/src/aes_afp_command_handler.cpp:1576-1930 | the destination that was added or removed is found and added or removed, with its limits, and logged |
| CommandHandler.Handler.CompleteNew | afp_cnz/afpadm_caa/src/aes_afp_command_handler.cpp:1959-2000 | the destinations of a new queue one after the other, with the rollback of a failure |
| CommandHandler.Handler.SetChecked | afp_cnz/afpadm_caa/src/aes_afp_command_handler.cpp:2283-2326 | destination by destination, the default status checked before each setting; a setting that fails forgets the log, a check that fails keeps it |
| CommandHandler.Handler.CompleteParameters | afp_cnz/afpadm_caa/src/aes_afp_command_handler.cpp:2014-2338 | merge with the attributes of the first entry, validation, then the destinations; success iff all are set |
| EventFilter.NotificationsAlternate | afp_cnz/afpadm_caa/src/aes_afp_database_fd.cpp:3598-3633 | between two openings an application is told down, cease, down, ... and exactly its queue's events without leading ceases and repeats, whatever other queues do |
| EventFilter.PassedAreChanges | afp_cnz/afpadm_caa/src/aes_afp_database_fd.cpp:3598-3633 | the same from any state of the filter |
| EventFilter.OtherEventsPass | afp_cnz/afpadm_caa/src/aes_afp_database_fd.cpp:3604-3607 | events of other kinds all pass, in order |
| EventFilter.NeverFound | afp_cnz/afpadm_caa/src/aes_afp_database_fd.cpp:3576-3596 | the entry found under a queue's name never has that name, in a database of plain names |
| EventFilter.Filter.Serve | afp_cnz/afpadm_caa/src/aes_afp_database_fd.cpp:3144-3172 | any history of events and openings lets through what the filter function says |
| FileExpiry.ReadyExactly | afp_cnz/afpadm_caa/src/aes_afp_file.cpp:350-404 | a file is ready for deletion iff it is being deleted or removed and its delay is 0 or its clock, with the 32-bit product, has run out |
| FileExpiry.ReadyInRange | afp_cnz/afpadm_caa/src/aes_afp_file.cpp:350-404 | a sent file with a delay of 1 to 35791394 minutes is ready iff that long has passed since its creation, for remove-before, or since it was sent |
| FileExpiry.NeverEarlyExactly | afp_cnz/afpadm_caa/src/aes_afp_file.cpp:350-404 | no file is ready before 60 * delay seconds, and none with -1, iff the delay is at most 35791394 |
| FileExpiry.SweepSettles | afp_cnz/afpadm_caa/src/aes_afp_transferqueue.cpp:1575-1674 | after deleteFiles the delete map has the path of each expired file, the file is unlisted, and no path of a listed file is in the map |
| FileExpiry.ExpiredRemoved | afp_cnz/afpadm_caa/src/aes_afp_database_fd.cpp:3982-4019 | an expired file is unlisted; once its status file is gone its source is removed unless a queue with the source's directory lists the name, until then it stays in the delete map |
| FileExpiry.SharedSourceKept | afp_cnz/afpadm_caa/src/aes_afp_database_fd.cpp:2376-2427 | in every run a source file is removed only when no queue with its directory lists its name, and only for an item whose time had come |
| FileExpiry.SourcesSparedExactly | afp_cnz/afpadm_caa/src/aes_afp_database_fd.cpp:2376-2427 | whatever the delete map holds, no source of a listed file is removed iff for each listed file a queue with the file's own source directory lists its name |
| FileExpiry.ListedSourceKept | afp_cnz/afpadm_caa/src/aes_afp_database_fd.cpp:2376-2427 | in every run whose listed files have no source directory but their queue's, no source of a listed file is removed |
| FileExpiry.ForeignSourceLost | afp_cnz/afpadm_caa/src/aes_afp_database_fd.cpp:2376-2427 | two queues that list a file of a third directory: the round in which it expires in one removes the source the other lists |
| ExpiryThread.ExpiringQueue.DeleteFiles | afp_cnz/afpadm_caa/src/aes_afp_transferqueue.cpp:1575-1674 | erasing while walking leaves exactly the files that have not expired, and the delete map the functions give |
| ExpiryThread.ExpiryDatabase.DeletePhysFile | afp_cnz/afpadm_caa/src/aes_afp_database_fd.cpp:2376-2427 | the search says remove iff no queue with the source's directory lists its name |
| ExpiryThread.ExpiryDatabase.DeleteExpired | afp_cnz/afpadm_caa/src/aes_afp_database_fd.cpp:3982-4019 | one round removes the source files and map entries the model says |
| Timestamps.StampsIncreaseExactly | afp_cnz/afpadm_caa/src/aes_afp_timestamp.cpp:78-109 | on a clock that does not go back, stamps increase strictly iff no second has more than 1000 |
| Timestamps.StampReads | afp_cnz/afpadm_caa/src/aes_afp_timestamp.cpp:174-191 | a stamp is 17 digits that read as year, month, day, hour, minute, second and sequence number |
| Timestamps.LaterIsYounger | afp_cnz/afpadm_caa/src/aes_afp_file.cpp:529-553 | then a later file is younger and no earlier one is |
| Timestamps.IsYounger | afp_cnz/afpadm_caa/src/aes_afp_file.cpp:529-553 | comparing 18 characters of two dated buffers is comparing their stamps |
| Timestamps.SequenceNumberRemoved | afp_cnz/afpadm_caa/src/aes_afp_timestamp.cpp:198-208 | removing the sequence number of a stamp gives its date |
| Timestamps.Timestamp.Serve | afp_cnz/afpadm_caa/src/aes_afp_timestamp.cpp:174-191 | successive calls give the stamps of the readings |
| AnswerFragments.FragmentsReassemble | afp_cnz/afpadm_caa/src/aes_afp_apcom_hand.cpp:542-643 | buffers have at most 64000 characters, exactly the last has the end flag, and the payloads together are the answer, for any header numbers |
| AnswerFragments.HeaderReads | afp_cnz/afpadm_caa/src/aes_afp_apcom_hand.cpp:542-643 | the first line is rpch and the end flag, lines two to five of the first buffer read back as message kind, message type, error code and data flag, and the payload follows |
| AnswerFragments.FragmentsFull | afp_cnz/afpadm_caa/src/aes_afp_apcom_hand.cpp:542-643 | one buffer is sent iff header and answer fit 64000 characters; of several, all but the last are full, except one before a last buffer without payload |
| AnswerFragments.SendAnswer | afp_cnz/afpadm_caa/src/aes_afp_apcom_hand.cpp:542-643 | the loop sends exactly those buffers, or a first part of them when the session fails |

## Left out

- TransferProtocol: one label is one step between two accesses to shared state; finer interleavings inside a callback are not modelled.
- StopKeepsExactly: says when one stop step keeps the invariant, not what later steps make of a state without it.
- CdhTask.Destination.Send: the callbacks are proved for a manage queue that refuses fewer than five times in a row; what follows a lost message, with the branch of CDHREATTACH that then fails the file, is outside the model.
- UniqueNames.PersistentNamesDiffer: for a template with a blade id it needs fixed lengths on one side, which is sufficient only; the text of that token is a function of the original name, and only BladeCollides gives the other direction.
- NumberCollisions.ClashCollides: sizes and names are unbounded, so one of its two files may be larger than a file system holds.
- TemplateNames.NumbersContinue: the startup number is at most the top, and a commit follows each name.
- QueueEntries.Create: the errors of init are one code; creating directories and opening CDH is the answer `up`.
- QueueEntries.RemoveDest: keys are strings, so names with underscores may share a key, as in the source.
- QueueLeader.SendsOneName: the collision loop of renameFileLocal is part of the name the environment gives.
- CcbUndo.CompleteCreate: removeSourceDirectoryFiles also removes the source files; its walk over the map is that of removeTransferQueue.
- CcbUndo.CompleteModify: the answers of the validations and of checkDefaultStatus are given by the environment; the log is a list instead of an array of three.
- QueueDatabase.Database.RemoveDestinationSet: a number in persist.nr that does not fit an unsigned int is not told from others.
- CommandHandler: IMM reads and writes, class names, object names and the augmented transaction; transactions of more than one operation.
- FileExpiry: manual queues, a shutdown in the middle of deleteFiles, and alarms; the walk over a round's delete map may stop anywhere, since the status files that could be removed are a parameter.
- FileExpiry.Int32: a signed product out of range is undefined in C++; the model wraps it.
- Timestamps.Forward: local time is taken to follow the clock, so the hour that daylight saving repeats is outside the model.
- AnswerFragments.SendAnswer: answers that are not lists, whose length comes from a sizeof, and lists with a NUL character.
- The header scan of received messages, data block accessors, DSD sessions, HA, logging, audit and AEH events.
- addDestinationSet, resendOne and manual queues, which bypass agreement and leadership.
- aes_afp_api and aes_afp_protocol are not part of this model; validation by the API is an assumption on parameters.
- Reading queues back from disk or IMM at start, recover_data, nextSeqNrCreationDate and setDateString.
