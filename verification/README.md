# jmap-bridge, modelled and proved in Dafny

jmap-bridge serves JMAP on top of IMAP and CalDAV and stores nothing of its own. What a JMAP server would keep in a
database it rebuilds on every request: changes from cursor vectors, threads from header searches, blobs from part
numbers, ids from locations. This project models that code and proves what its comments argue for, over every history,
every filter, every MIME tree, every interleaving. Where the code falls short of what it promises, a theorem says
exactly for which inputs, and a lemma shows it on one wherever that is not the same thing.

`dafny verify dfyconfig.toml` checks everything.

## The modules

| file | what it models |
|---|---|
| `ImapStore.dfy` | a mailbox and an account as step systems (append, flag store, expunge; create, delete, rename), `SEARCH n:*`, CHANGEDSINCE |
| `ModseqState.dfy`, `EmailChanges.dfy`, `SweepRace.dfy` | cursors, `Mailbox/changes`, `Email/changes`, a client that follows the answers, and activity between sweep and search |
| `SearchKeys.dfy`, `SplitWords.dfy`, `FilterCompiler.dfy`, `FilterMeaning.dfy`, `QueryErrors.dfy` | RFC 3501 search keys with their parser and meaning; `str.split`; the filter compiler, and for which filters and messages it is wrong |
| `ThreadIds.dfy`, `ThreadSearch.dfy`, `LetterCase.dfy` | thread ids and the search that finds a thread's members |
| `ConnectionPool.dfy` | the pool as a transition system of its critical sections, and as the class that takes those steps |
| `MimeParts.dfy`, `BodyChoice.dfy` | the three numberings of MIME parts, blob ids, and the two classifiers |
| `Sorting.dfy`, `ParallelMap.dfy`, `Permutations.dfy` | sorting by several keys, strided chunks, the query over every mailbox |
| `IdRedirect.dfy`, `EmailMoves.dfy` | the redirect table; moves, copies and destroys over names that are never reused |
| `RecurrenceOverrides.dfy`, `OccurrenceWire.dfy`, `PatchMerge.dfy` | occurrences written as VEVENTs and read back as patches; pointer patches of map entries |
| `Dispatch.dfy`, `ReferencePlaces.dfy`, `BatchAnswers.dfy`, `RequestCache.dfy`, `PushWatcher.dfy` | one batch of calls; the sweep memoised for it; event-stream subscribers |
| `Base64Url.dfy`, `Json.dfy`, `StateTokens.dfy`, `IdSyntax.dfy` | ids and state strings, down to characters |
| `ObjectIds.dfy`, `Wrappers.dfy` | what ids name; Option and Result |

## What is taken for granted

- The IMAP server has CONDSTORE and raises HIGHESTMODSEQ on expunge, gives UIDs in ascending order, and never uses a
  (name, UIDVALIDITY, UID) twice. `EmailChanges.WithoutCondstoreNothingIsReported` says what happens without
  CONDSTORE.
- In `EmailChanges`, a mailbox stays still between the sweep (src/jmap_bridge/types/email.py:738) and the search
  (759-768). `SweepRace` drops that.
- Mailbox names and mailbox ids correspond one to one. Dates have the day precision of IMAP SEARCH.
- `list.sort` keeps ties in order in both directions, as its documentation promises; `Sorting.SortIsUnique` shows that
  this leaves nothing else open.
- Recurrence keys and local times correspond one to one; adding a length to a local time is adding seconds.
- One asyncio section that holds the pool's lock is one step.

## Where the code does not do what it promises

Files here are those of the table below.

- A child of an OR or a NOT that compiles to no criteria is dropped (email.py:478-495): "nothing that contains a
  blank" finds everything. `FilterCompiler.DroppedChildExactly` says for which messages one such drop matters,
  `QueryErrors.TreeIsWrongExactly` for drops anywhere in the tree; the case is `FilterCompiler.BlankTextUnderNot`.
- The documentation (email.py:19-23) says that `inMailbox` under an OR or NOT is rejected. It is accepted, and
  ignored, exactly when another one stands on an AND path (`QueryErrors.AcceptedExactly`;
  `FilterCompiler.HiddenMailboxIsAccepted` is a case). Of two on AND paths the second is ignored
  (`QueryErrors.SecondMailboxIsIgnored`). `QueryErrors.QueryIsWrongExactly` says of every accepted filter and message
  when the answer is wrong.
- Activity between the sweep and the search of Email/changes (email.py:738-770) can make the answer untrue:
  `SweepRace.LateAnswerExactly`. Without an expunge in that gap no destroy goes unreported, and the answer is true
  exactly without an append: `SweepRace.WithoutLateExpunges`. A message appended there is listed as updated
  (`SweepRace.AppendAfterTheSweepIsMistaken`); an expunge there can hide an earlier one
  (`SweepRace.ExpungeAfterTheSweepIsMissed`).
- A part of type message other than message/rfc822, such as a delivery status, is a leaf for BODYSTRUCTURE and a
  container for the parser, so the numbers after it differ and blob ids resolve to other parts:
  `MimeParts.AllResolveExactly`, `LeafResolvesExactly`, `DeliveryStatusShiftsTheNumbers`.
- The classifiers of the cheap and the full path agree if and only if the first inline text and html parts decode:
  `MimeParts.ClassifiersAgreeExactly`, and `MimeParts.UndecodableTextDiffers` for a case.
- A connect that is cancelled, not failed, keeps its slot for ever, since `except Exception` (pool.py:185) does not
  catch the cancellation; likewise a release. `ConnectionPool.CountIsExact` counts the slots lost this way; in
  `ConnectionPool.SlotIsLost` the next task then waits for nobody.
- A move through an older id files the redirect under that id alone (email.py:1093); the id that named the message
  until then leads nowhere: `EmailMoves.CurrentIdFollowsExactly`, `EmailMoves.CurrentIdIsStranded`.
- The redirect is filed before the STORE and EXPUNGE that finish a move (email.py:1093-1095). When one of these fails
  the message is in both mailboxes and the id leads to the copy, so the same move asked for again succeeds, does
  nothing, and leaves the original where it was: `EmailMoves.FailedRemovalKeepsBoth`,
  `EmailMoves.RetryLeavesTheOriginal`.
- A `newState` from Email/set or Email/import comes from the sweep memoised before the write, when there is one
  (`RequestCache.NewStateIsNewExactly`, `NewStateIsOld`). The memo is cleared by method name after a call that returns
  (dispatch.py:273-286), so a write that raises leaves a stale sweep behind: `RequestCache.FreshExactly`,
  `RaisedWriteIsNotSeen`.
- The event-stream watcher survives an ImapError only (push.py:123). The first command of a poll is LIST, a call that
  does not turn a lost connection into an ImapError (client.py:108-118): the loop then ends, `_task` stays set,
  so `subscribe` (push.py:98) never starts another, and nobody on the account is told of anything again.
  `PushWatcher.TellsAllExactly` says when all is told, `PushWatcher.ToldEverythingExactly` what is
  lost, `PushWatcher.ChangeAfterFailedListIsLost` is the case.
- A call whose name or tag is a list or an object raises outside the `try` (dispatch.py:249, 253-288), for a tag after
  the handler has done its work: the whole request gets no answer, exactly when there is such a call.
  `Dispatch.AnsweredExactly`, `Dispatch.LostAfterTheHandler`.
- An occurrence nobody changed is reported as changed when the master's DESCRIPTION is empty, or when an all-day
  master does not last whole days: `RecurrenceOverrides.UntouchedComesBackExactly`, `EmptyDescriptionIsAChange`.
- An override `excluded: true` with any other property beside it does not exclude the occurrence:
  `RecurrenceOverrides.ExcludedExactly`, `ExcludedWithTitleStays`.
- A pointer three segments deep is taken for one key with a slash in its name: `PatchMerge.DeeperPointerIsOneKey`.
- `imap_parallel_map` with an explicit `max_concurrency` below one drops every entry: `ParallelMap.ImapParallelMap`.

## Model

| member | source | states |
|---|---|---|
| `ImapStore.SearchAlwaysHasTheLast` | src/jmap_bridge/types/email.py:759-768 | `n:*` answers the messages from n up or, when there are none, the last message |
| `ImapStore.RunEvolves` | src/jmap_bridge/backends/imap/modseq_state.py:105-126 | what any history of appends, stores and expunges keeps: UIDs ascend, modseqs rise with every change, survivors keep theirs unless touched |
| `ImapStore.AccountRunEvolves` | src/jmap_bridge/backends/imap/modseq_state.py:82-102 | the same for accounts whose mailboxes come, go and change names |
| `ModseqState.DiffMailboxState` | src/jmap_bridge/backends/imap/modseq_state.py:82-102 | the loop answers the difference of the cursor maps, or refuses on a rotated UIDVALIDITY |
| `ModseqState.MailboxChangesOverEveryRun` | src/jmap_bridge/types/mailbox.py:192-225 | refuses exactly when a name holds another mailbox; else created, updated and destroyed are exactly the mailboxes that came, changed and went |
| `EmailChanges.CountReconciles` | src/jmap_bridge/backends/imap/modseq_state.py:105-126 | the message count reconciles if and only if no old message is gone |
| `EmailChanges.SearchFindsNewcomers` | src/jmap_bridge/types/email.py:759-768 | what the range search finds, newcomers or not |
| `EmailChanges.DiffBoxIsExact` | src/jmap_bridge/types/email.py:736-782 | one mailbox, for any earlier and later state: refused or exact |
| `EmailChanges.EmailChanges` | src/jmap_bridge/types/email.py:728-792 | the loop over mailboxes: each id listed once, the union of the mailboxes' diffs; or which error, for a mailbox that cannot be compared or selected |
| `EmailChanges.EmailChangesOverEveryRun` | src/jmap_bridge/types/email.py:736-782 | over every history of a mailbox: created and updated are exact, and it refuses if and only if an old message is gone or every newcomer is gone again while the mailbox is not empty |
| `EmailChanges.AnswersWhenKeptWhole` | src/jmap_bridge/types/email.py:736-782 | the account is answered for exactly when every known mailbox is kept whole |
| `EmailChanges.CreatedIsExact` | src/jmap_bridge/types/email.py:736-782 | created is exactly the new messages of the known mailboxes |
| `EmailChanges.UpdatedIsExact` | src/jmap_bridge/types/email.py:736-782 | updated is exactly the old messages that changed, and no old message is gone |
| `EmailChanges.AnswerOverEveryAccountRun` | src/jmap_bridge/types/email.py:728-792 | the whole answer over every history of the account: `destroyed: []` is true, created and updated exact in known mailboxes |
| `EmailChanges.ClientNeverDrifts` | src/jmap_bridge/types/email.py:707-792 | a client that feeds each newState back holds, after every answer, exactly the server's messages and flags in the mailboxes it started with |
| `SweepRace.LateAnswerExactly` | src/jmap_bridge/types/email.py:738-782 | whatever happens between sweep and search: when the answer is given, what it lists, how many destroys it hides, and when `updated` names only messages the client knows |
| `SweepRace.WithoutLateExpunges` | src/jmap_bridge/types/email.py:738-782 | without an expunge in that gap no destroy is hidden, `created` is exact as of the sweep, and `updated` is known messages if and only if nothing was appended |
| `SweepRace.StoresAfterTheSweepAreHarmless` | src/jmap_bridge/types/email.py:738-770 | flag stores in that gap only make updates show early |
| `SweepRace.AppendAfterTheSweepIsMistaken` | src/jmap_bridge/types/email.py:759-770 | a message appended in that gap is listed as updated: a concrete history |
| `SweepRace.ExpungeAfterTheSweepIsMissed` | src/jmap_bridge/types/email.py:738-768 | an expunge in that gap can hide an earlier one: a concrete history |
| `EmailChanges.WithoutCondstoreNothingIsReported` | src/jmap_bridge/types/mailbox.py:124-132 | without CONDSTORE every answer is "no changes" while UIDVALIDITY is kept |
| `SearchKeys.ParseKeyIgnoresTheRest` | src/jmap_bridge/types/email.py:390-420 | a search key is read the same whatever follows it |
| `SearchKeys.ParseKeysJuxtaposed` | src/jmap_bridge/types/email.py:422-465 | keys written one after the other are read as the two lists of keys |
| `SearchKeys.NotMeans` | src/jmap_bridge/types/email.py:468-495 | NOT before a bracketed group is the negation of the group |
| `SearchKeys.OrMeans` | src/jmap_bridge/types/email.py:468-495 | OR before two bracketed groups is their disjunction |
| `SplitWords.FindsOnlyWords` | src/jmap_bridge/types/email.py:390-420 | every piece of the split text is a maximal run without blanks |
| `SplitWords.FindsEveryWord` | src/jmap_bridge/types/email.py:390-420 | every maximal run without blanks is among the pieces |
| `FilterCompiler.SearchTerms` | src/jmap_bridge/types/email.py:390-420 | one key for each word, a trailing star stripped |
| `FilterCompiler.CombineGroups` | src/jmap_bridge/types/email.py:474-495 | the loops of AND, NOT and OR over the children's tokens |
| `FilterCompiler.TranslateOperator` | src/jmap_bridge/types/email.py:468-495 | the loop over the children, and the refusal of other operators and of no conditions, compute what the translation is proved about |
| `FilterCompiler.TranslateFilter` | src/jmap_bridge/types/email.py:498-501 | the same for a whole tree |
| `FilterCompiler.TranslateMeansKept` | src/jmap_bridge/types/email.py:422-511 | for every filter that compiles, the tokens are read back completely and mean the tree without its empty children |
| `FilterCompiler.DroppedChildExactly` | src/jmap_bridge/types/email.py:478-495 | where an OR or NOT drops a child the criteria are right for a message if and only if a child that is left matches it, or it is an OR with none left |
| `FilterCompiler.CompiledQueryIsExact` | src/jmap_bridge/types/email.py:355-511 | Email/query: a message is in a searched mailbox and matches the emitted keys if and only if it satisfies the filter tree |
| `FilterCompiler.RefusedExactly` | src/jmap_bridge/types/email.py:422-501 | a filter is refused exactly for a node SEARCH cannot express |
| `FilterMeaning.ConditionAsksExactly` | src/jmap_bridge/types/email.py:331-465 | every condition: the mailbox it names or all of them, and there exactly the messages with the flags, words, header and dates it asks for, each property and system flag by its name, "w*" for w |
| `FilterMeaning.KeywordIsAskedFor` | src/jmap_bridge/types/email.py:331-336 | hasKeyword finds exactly the messages with the flag of the keyword, or the keyword itself when it has none; notKeyword exactly the others |
| `FilterMeaning.KeywordsOnTheWire` | src/jmap_bridge/types/email.py:278-336 | the four system keywords are sent as the search keys of their flags |
| `FilterMeaning.RefusedWithTheFirstError` | src/jmap_bridge/types/email.py:422-501 | a refused filter is refused with the error of its first wrong node, parents first and left to right |
| `FilterCompiler.BlankTextUnderNot` | src/jmap_bridge/types/email.py:478-495 | a dropped child under NOT turns "no message" into "every message" |
| `FilterCompiler.HiddenMailboxIsAccepted` | src/jmap_bridge/types/email.py:355-387 | an inMailbox under OR is accepted and ignored when another one is found first |
| `QueryErrors.AcceptedExactly` | src/jmap_bridge/types/email.py:355-387 | a filter is accepted if and only if it translates and, when it names a mailbox, names one on an AND path; one named under OR or NOT is accepted exactly beside such another |
| `QueryErrors.TreeIsWrongExactly` | src/jmap_bridge/types/email.py:422-495 | for every filter and message: the criteria let through or keep out what the tree does not, exactly where dropped children and ignored mailboxes, passed up through the operators, say so |
| `QueryErrors.QueryIsWrongExactly` | src/jmap_bridge/types/email.py:355-511 | Email/query returns a message that does not satisfy an accepted filter, or misses one that does, exactly there and in the searched mailbox |
| `QueryErrors.SecondMailboxIsIgnored` | src/jmap_bridge/types/email.py:355-373 | two different inMailbox under AND: all of the first is returned, and no message satisfies the filter |
| `ThreadIds.ThreadIdRoundTrip` | src/jmap_bridge/backends/imap/email_map.py:326-343 | a thread id decodes to the kind and basis it was made from |
| `ThreadIds.HeaderIdsAreInjective` | src/jmap_bridge/backends/imap/email_map.py:286-323 | different root message ids give different thread ids |
| `ThreadIds.MessageIdOccurs` | src/jmap_bridge/backends/imap/email_map.py:132-138 | a message id taken from a header occurs in that header's text |
| `ThreadIds.RootIsFound` | src/jmap_bridge/backends/imap/email_map.py:286-323 | the root a message's headers derive occurs in one of the three headers searched |
| `ThreadIds.OnlyIdsAreTaken` | src/jmap_bridge/backends/imap/email_map.py:132-138 | whatever a header holds, what is taken from it are message ids |
| `ThreadIds.EveryIdIsTaken` | src/jmap_bridge/backends/imap/email_map.py:132-138 | and every message id that stands anywhere in it is taken |
| `ThreadIds.ListedIdsAreRead` | src/jmap_bridge/backends/imap/email_map.py:132-138 | the ids a header names, with anything but angle brackets around them, are the ids taken from it, in order |
| `ThreadIds.RootIsFirst` | src/jmap_bridge/backends/imap/email_map.py:314-320 | the root is the first id of References, or of In-Reply-To when that names none, or the message's own |
| `ThreadIds.ReplyJoinsTheThread` | src/jmap_bridge/backends/imap/email_map.py:286-323 | a message that carries on its parent's References, or names the parent when it has none, gets the parent's thread id whatever else follows and whatever its other headers say |
| `ThreadIds.AnswerJoinsTheThread` | src/jmap_bridge/backends/imap/email_map.py:314-323 | with no References, an In-Reply-To that names a thread's root joins that thread |
| `ThreadIds.ConversationIsOneThread` | src/jmap_bridge/backends/imap/email_map.py:286-323 | a conversation of any shape and length, where each message carries on the References of an earlier one, is one thread |
| `ThreadSearch.BuildOrCriteria` | src/jmap_bridge/types/thread.py:42-56 | the fold emits the flat prefix OR of all clauses |
| `ThreadSearch.FlatOrParses` | src/jmap_bridge/types/thread.py:42-56 | the flat prefix OR is read as one key, the disjunction of its clauses, whatever follows it |
| `ThreadSearch.CriteriaMean` | src/jmap_bridge/types/thread.py:42-56 | the criteria match exactly the messages with one of the values in one of the three headers |
| `ThreadSearch.SearchMissesNothing` | src/jmap_bridge/types/thread.py:59-74 | every message whose headers derive a searched thread is found |
| `ThreadSearch.SearchOneMailbox` | src/jmap_bridge/types/thread.py:59-74 | one mailbox: the found messages with the threads their own headers derive |
| `ThreadSearch.ResolveHeaderBasedThreads` | src/jmap_bridge/types/thread.py:77-117 | grouped by thread, each member of each asked thread once, over all mailboxes |
| `ThreadSearch.LocationIsExact` | src/jmap_bridge/types/thread.py:120-144 | a location id has at most one member, the message at that place, if its headers derive nothing |
| `ThreadSearch.ThreadGet` | src/jmap_bridge/types/thread.py:147-211 | for any ids: each is answered exactly as a scan of the whole account would, or in notFound exactly when it has no members |
| `ThreadSearch.MemberIdsDecode` | src/jmap_bridge/backends/imap/email_map.py:326-343 | the thread id of every message in the account decodes |
| `ConnectionPool.StepInv` | src/jmap_bridge/pool.py:78-216 | every section keeps the pool's invariant |
| `ConnectionPool.CountIsExact` | src/jmap_bridge/pool.py:97-189 | in every interleaving the count is within the limit, and equals idle, lent and connecting if and only if nothing was cancelled while connecting or releasing |
| `ConnectionPool.SlotIsLost` | src/jmap_bridge/pool.py:175-189 | one slot, one cancelled connect: the next task waits although nothing is idle, lent or connecting |
| `ConnectionPool.ConnectionsAreOwned` | src/jmap_bridge/pool.py:97-189 | nobody uses a connection opened with another password or key, no two share one, none in use is idle |
| `ConnectionPool.SleepersAreRightToSleep` | src/jmap_bridge/pool.py:140-189 | no lost wake-up: a task sleeps unnotified only with nothing idle and every slot taken or lost |
| `ConnectionPool.AttemptDecides` | src/jmap_bridge/pool.py:144-173 | when a turn of the loop reuses, when it connects, when it waits |
| `ConnectionPool.GoneStaysGone` | src/jmap_bridge/pool.py:117-216 | over every run: a connection that left the pool is never idle or lent again |
| `ConnectionPool.DamagedNeverComesBack` | src/jmap_bridge/pool.py:92-126 | over every run: a connection whose body raised or was cancelled is never idle or lent again |
| `ConnectionPool.SoundComesBack` | src/jmap_bridge/pool.py:113-126 | a connection given back by a body that ended is idle under its opener's key, with the opener's hash and the time of the release, and keeps its slot |
| `ConnectionPool.SweptExactly` | src/jmap_bridge/pool.py:196-216 | a sweep drops for ever exactly the idle connections past their key's age, 300 seconds when none is set, and every other stays idle where it was |
| `ConnectionPool.ImapConnectionPool.Configure` | src/jmap_bridge/pool.py:140-143 | entering the section files the key's limit and eviction age, and nothing else |
| `ConnectionPool.ImapConnectionPool.AcquireTurn` | src/jmap_bridge/pool.py:144-173 | the class takes the step of one turn, eviction included |
| `ConnectionPool.ImapConnectionPool.GiveBack` | src/jmap_bridge/pool.py:113-126 | the class takes the step of a release, normal or not, and notifies |
| `ConnectionPool.ImapConnectionPool.ConnectFailure` | src/jmap_bridge/pool.py:175-189 | the class takes the step of a failed connect, and notifies |
| `ConnectionPool.ImapConnectionPool.SweepOnce` | src/jmap_bridge/pool.py:196-216 | the class takes the sweep's step and returns exactly the overdue connections |
| `MimeParts.IterLeafParts` | src/jmap_bridge/backends/imap/email_map.py:141-162 | the walk with its shared counter numbers the leaves 1..n in order |
| `MimeParts.ExtractBlobPart` | src/jmap_bridge/backends/imap/email_map.py:264-283 | -1 is the whole message, 1..n the n-th leaf, anything else nothing |
| `MimeParts.FullStructureIsNumbered` | src/jmap_bridge/backends/imap/email_map.py:214-254 | bodyStructure gives each leaf the same number and blob id |
| `MimeParts.NativeWalk.Walk` | src/jmap_bridge/backends/imap/email_map.py:522-636 | the walk over BODYSTRUCTURE, with its shared counter and list, computes the numbering the lemmas speak of |
| `MimeParts.NativeIsShape` | src/jmap_bridge/backends/imap/email_map.py:522-636 | over what a server sends for any tree, every part with fields of its own and extension fields as far as the server likes, each part's type and disposition are found at the offsets of its kind, and the leaves numbered in order |
| `MimeParts.ThreeWalksAgree` | src/jmap_bridge/backends/imap/email_map.py:141-254 | without opened parts the three walks number every tree alike, leaf for leaf |
| `MimeParts.LeafResolvesExactly` | src/jmap_bridge/backends/imap/email_map.py:264-283 | a cheaply minted blob id resolves to its leaf if and only if the parts before it, opened, count as many |
| `MimeParts.AllResolveExactly` | src/jmap_bridge/backends/imap/email_map.py:522-636 | every minted blob id resolves to its part if and only if no part is opened |
| `MimeParts.DeliveryStatusShiftsTheNumbers` | src/jmap_bridge/backends/imap/email_map.py:522-636 | a bounce: the returned message's blob id resolves to a status block |
| `MimeParts.ClassifyLeaves` | src/jmap_bridge/backends/imap/email_map.py:165-201 | the bodies are the first inline parts of their type that decode; which leaves are attachments |
| `MimeParts.ClassifyNativeLeaves` | src/jmap_bridge/backends/imap/email_map.py:639-657 | the same with every part taken to decode |
| `MimeParts.ClassifiersAgreeExactly` | src/jmap_bridge/backends/imap/email_map.py:165-201 | both choose the same bodies and attachments if and only if the first inline text and html parts decode |
| `MimeParts.UndecodableTextDiffers` | src/jmap_bridge/backends/imap/email_map.py:165-201 | a message of one undecodable text part: attachment for one path, body for the other |
| `BodyChoice.BodyIsTheFirst` | src/jmap_bridge/backends/imap/email_map.py:165-201 | the text body is the first part whose header spells text/plain, in any case, that is not marked attachment and decodes, with its number; likewise html; or there is none |
| `BodyChoice.AttachmentsAreThese` | src/jmap_bridge/backends/imap/email_map.py:165-201 | the attachments, in order, are the parts marked so, those of no body type, and the undecodable ones where that body was still wanted |
| `BodyChoice.NativeBodyIsTheFirst` | src/jmap_bridge/backends/imap/email_map.py:639-657 | the same from metadata, where every part is taken to decode |
| `BodyChoice.NativeAttachmentsAreThese` | src/jmap_bridge/backends/imap/email_map.py:639-657 | the same from metadata |
| `Sorting.ApplySort` | src/jmap_bridge/types/email.py:570-584 | sorting by each key, last to first, gives lexicographic order with full ties as they stood |
| `Sorting.SortIsUnique` | src/jmap_bridge/types/email.py:570-584 | only one list is so ordered |
| `Sorting.SortPermutes` | src/jmap_bridge/types/email.py:570-584 | and it is a permutation of the input |
| `Sorting.SmallerIsAnOrder` | src/jmap_bridge/types/email.py:547-567 | values compare in a total order in which a missing one is the greatest |
| `Sorting.FirstKeyOrders` | src/jmap_bridge/types/email.py:547-584 | the first key in force: earlier received, smaller, lesser subject or without the keyword first, and the other way round when descending |
| `Sorting.NextKeysDecide` | src/jmap_bridge/types/email.py:570-584 | rows with the same date, size, subject or keyword are ordered by the keys after it |
| `ParallelMap.ImapParallelMap` | src/jmap_bridge/context.py:101-151 | results are the work's on every entry, each once, if and only if there is nothing to do or the concurrency asked for is not below one |
| `ParallelMap.ChunksPartition` | src/jmap_bridge/context.py:141 | the strided chunks partition the entries for every length and number |
| `ParallelMap.CrossMailboxQuery` | src/jmap_bridge/types/email.py:599-636 | lists the id of every hit of every mailbox exactly once, in the order of the sort keys |
| `IdRedirect.IdRedirectCache.Record` | src/jmap_bridge/id_redirect.py:32-39 | one account's table takes the redirect at its end and drops its oldest; other accounts' stay |
| `IdRedirect.TableIsRecent` | src/jmap_bridge/id_redirect.py:32-39 | after any recordings a table is exactly the latest N distinct old ids with their latest targets |
| `IdRedirect.IdRedirectCache.Resolve` | src/jmap_bridge/id_redirect.py:41-57 | ends on every table, cyclic ones too: at the end of the chain, or at the id asked for when the chain has none |
| `IdRedirect.Follow` | src/jmap_bridge/id_redirect.py:50-57 | the loop itself, by a measure on keys not yet seen |
| `IdRedirect.ResolvesToOne` | src/jmap_bridge/id_redirect.py:41-57 | there is one answer, and it has no redirect of its own or is the id asked for |
| `EmailMoves.MailAccount.ApplyEmailUpdate` | src/jmap_bridge/types/email.py:987-1095 | the handler's steps, copy loop and redirect included, take the account to the state the lemmas speak of, also when a COPY, or the STORE or EXPUNGE at the end, fails; which error it answers, and when |
| `EmailMoves.TargetsExactly` | src/jmap_bridge/types/email.py:1030-1050 | which mailboxes an update asks for: those a whole set keeps; with single entries those whose last entry keeps them, and the current one if no entry names it |
| `EmailMoves.UpdatePutsItWhereAsked` | src/jmap_bridge/types/email.py:1052-1095 | after an update that is carried out the message is in exactly the mailboxes asked for, each copy under a live name of its own, and nothing else comes or goes |
| `EmailMoves.EmailIdCodecIsSound` | src/jmap_bridge/backends/imap/modseq_state.py:137-158 | email ids meet what the move lemmas ask of ids: each decodes to the name it was made from |
| `EmailMoves.StepInv` | src/jmap_bridge/types/email.py:987-1121 | arrivals, updates, updates that fail midway, destroys, expunges and recreated mailboxes keep every redirect between a name and a younger name of one message |
| `EmailMoves.RedirectsNeverLeaveTheMessage` | src/jmap_bridge/id_redirect.py:41-57 | over every history, evictions included: every chain ends, so the cycle guard never acts, and leads to the message the id was given for |
| `EmailMoves.MovedIdStaysUsableExactly` | src/jmap_bridge/types/email.py:1057-1095 | an id used for a move leads to a live message afterwards if and only if there was one destination and the server named the copy, and then to that copy |
| `EmailMoves.CurrentIdFollowsExactly` | src/jmap_bridge/types/email.py:1093 | the id that named the message until the move leads to the copy if and only if it is the id the move was asked under; otherwise it leads nowhere, unless it was redirected by an earlier failed removal and the move was asked under another spelling |
| `EmailMoves.CurrentIdIsStranded` | src/jmap_bridge/types/email.py:1093 | two moves under the first id: the id in between leads to no message |
| `EmailMoves.FailedRemovalKeepsBoth` | src/jmap_bridge/types/email.py:1090-1095 | a removal that fails leaves the message in both mailboxes and the id leading to the copy |
| `EmailMoves.RetryLeavesTheOriginal` | src/jmap_bridge/types/email.py:1090-1095 | the same move asked for again, whole set or single entries, does nothing and is answered without an error: the original stays |
| `RecurrenceOverrides.Component.ApplyJscalendarProps` | src/jmap_bridge/backends/caldav/event_map.py:563-602 | what the component holds after a patch, property by property |
| `RecurrenceOverrides.Component.ApplyDatetimeCluster` | src/jmap_bridge/backends/caldav/event_map.py:490-521 | start, zone, all-day flag and length after a patch; needs a start |
| `RecurrenceOverrides.WrittenReadsNormal` | src/jmap_bridge/backends/caldav/event_map.py:283-324 | reading a written component gives each property's normal form |
| `OccurrenceWire.ReadExactly` | src/jmap_bridge/backends/caldav/event_map.py:283-324 | what each JSCalendar property is read from: local time, zone, length from DURATION or to DTEND, texts, priority, place |
| `OccurrenceWire.TokensRead` | src/jmap_bridge/backends/caldav/event_map.py:283-324 | STATUS, TRANSP and CLASS by the names of RFC 5545, anything else by its default |
| `OccurrenceWire.WrittenIdentity` | src/jmap_bridge/backends/caldav/event_map.py:643-655 | an override component has the master's UID and, as RECURRENCE-ID, its key as a date or as a local time in the master's zone |
| `OccurrenceWire.WrittenTimes` | src/jmap_bridge/backends/caldav/event_map.py:490-521 | its DTSTART and DTEND: whole days when shown without time, else start and start plus length in one zone |
| `OccurrenceWire.WrittenTexts` | src/jmap_bridge/backends/caldav/event_map.py:563-602 | its SUMMARY, DESCRIPTION and PRIORITY, present or absent |
| `OccurrenceWire.WrittenPlace` | src/jmap_bridge/backends/caldav/event_map.py:605-611 | its LOCATION: the name of the first place |
| `OccurrenceWire.WrittenTokens` | src/jmap_bridge/backends/caldav/event_map.py:583-602 | its STATUS, TRANSP and CLASS by the names of RFC 5545 |
| `OccurrenceWire.PatchedTimes` | src/jmap_bridge/backends/caldav/event_map.py:490-521 | a patch of any component: its times are written anew exactly when the patch names one of the four, with what it does not name as it was read |
| `OccurrenceWire.OthersAreLeft` | src/jmap_bridge/backends/caldav/event_map.py:563-602 | what a patch does not name is left as it was |
| `RecurrenceOverrides.CalendarObject.ApplyRecurrenceOverrides` | src/jmap_bridge/backends/caldav/event_map.py:621-663 | the object after its overrides were replaced: exclusions, strays kept, one component for each other override |
| `RecurrenceOverrides.CalendarObject.RecurrenceOverrides` | src/jmap_bridge/backends/caldav/event_map.py:435-454 | the loops read the map the lemmas speak of |
| `RecurrenceOverrides.ReadsOverStrays` | src/jmap_bridge/backends/caldav/event_map.py:435-454 | reading after writing, over what components of other UIDs say |
| `RecurrenceOverrides.ReadsWhatWasWritten` | src/jmap_bridge/backends/caldav/event_map.py:621-663 | the round trip: the same exclusions, and for every other override its patch in minimal normal form, each where it is filed; the same occurrences if and only if those of an all-day event were midnights |
| `RecurrenceOverrides.ComesBackExactly` | src/jmap_bridge/backends/caldav/event_map.py:413-432 | a patch comes back as it was if and only if it is tracked, minimal and normal |
| `RecurrenceOverrides.PatchRebuilds` | src/jmap_bridge/backends/caldav/event_map.py:413-432 | applying the patch that is read rebuilds the occurrence |
| `RecurrenceOverrides.ReadingIsStable` | src/jmap_bridge/backends/caldav/event_map.py:413-432 | from the first reading on, writing and reading change nothing |
| `RecurrenceOverrides.UntouchedComesBackExactly` | src/jmap_bridge/backends/caldav/event_map.py:413-432 | when an unchanged occurrence reads back as unchanged |
| `RecurrenceOverrides.EmptyDescriptionIsAChange` | src/jmap_bridge/backends/caldav/event_map.py:413-432 | a master with an empty DESCRIPTION: its untouched occurrence reads back as changed |
| `RecurrenceOverrides.ExcludedExactly` | src/jmap_bridge/backends/caldav/event_map.py:645-648 | after writing, an occurrence reads back as excluded if and only if its patch said that and nothing else |
| `RecurrenceOverrides.ExcludedWithTitleStays` | src/jmap_bridge/backends/caldav/event_map.py:645-648 | given as excluded with a title: it stays, with that title |
| `PatchMerge.UnescapeInvertsEscape` | src/jmap_bridge/backends/caldav/event_map.py:688-689 | the two passes undo the escaping of RFC 6901 section 3 for every string |
| `PatchMerge.OtherOrderExactly` | src/jmap_bridge/backends/caldav/event_map.py:688-689 | the other order would do for exactly the strings without a tilde before a one |
| `PatchMerge.PointerRoundTrip` | src/jmap_bridge/backends/caldav/event_map.py:706-713 | a pointer to an entry or to a key of it decodes to that entry and key |
| `PatchMerge.DeeperPointerIsOneKey` | src/jmap_bridge/backends/caldav/event_map.py:706-713 | a deeper pointer decodes to a key with a slash in its name |
| `PatchMerge.MergePatchKeys` | src/jmap_bridge/backends/caldav/event_map.py:692-725 | the loop sets the decoded targets in order |
| `PatchMerge.OrderDoesNotMatter` | src/jmap_bridge/backends/caldav/event_map.py:692-725 | a patch as received, in any order, merges to the same entries, if no key points at or into another |
| `PatchMerge.EachKeyHolds` | src/jmap_bridge/backends/caldav/event_map.py:692-725 | every key of the patch is in force afterwards, null by absence |
| `PatchMerge.OthersAreKept` | src/jmap_bridge/backends/caldav/event_map.py:692-725 | entries and keys no key points at stay as they were |
| `Dispatch.FailsOnFirstUnknown` | src/jmap_bridge/dispatch.py:154-194 | substitution fails on the first reference in an id position that names nothing created, and on nothing else |
| `Dispatch.SucceedsExactly` | src/jmap_bridge/dispatch.py:164-194 | it succeeds if and only if every reference in an id position is known |
| `Dispatch.SubstituteIsIdempotent` | src/jmap_bridge/dispatch.py:164-194 | substituting again changes nothing, even with more created since |
| `Dispatch.OutsideIdsUnchanged` | src/jmap_bridge/dispatch.py:164-194 | at every place outside id positions stands what stood there, substituted within; texts as they were |
| `Dispatch.StarPicksEach` | src/jmap_bridge/dispatch.py:63-86 | a star before one key picks one value from each element, in order, or fails |
| `Dispatch.PathCollectsExactly` | src/jmap_bridge/dispatch.py:63-86 | any path, stars anywhere: the result holds exactly what stands at the concrete places the path stands for, lists opened once |
| `Dispatch.PathResolvesExactly` | src/jmap_bridge/dispatch.py:63-86 | any path resolves if and only if, wherever it leads, a star meets a list and a key an object that has it |
| `Dispatch.DispatchRequest` | src/jmap_bridge/dispatch.py:229-290 | the loop over the calls, of whatever values the request holds, computes the batch the lemmas speak of, or raises |
| `Dispatch.AnsweredExactly` | src/jmap_bridge/dispatch.py:240-288 | whatever the handlers do, a request is answered if and only if no call's name or tag is a list or an object |
| `Dispatch.LostAfterTheHandler` | src/jmap_bridge/dispatch.py:257-288 | a tag that is a list: the handler runs, and nothing is answered |
| `Dispatch.ResponsesAlign` | src/jmap_bridge/dispatch.py:229-290 | in a request that is answered: one response for each call, under its tag, the answer to it after the calls before it |
| `Dispatch.StateIsWhatWasAnswered` | src/jmap_bridge/dispatch.py:216-290 | references see the seed map overlaid by what earlier successful responses created, and the latest result under a tag |
| `ReferencePlaces.SubstitutesExactly` | src/jmap_bridge/dispatch.py:154-194 | substitution, said of the places of the tree: each reference under an id property, and each key of an object keyed by ids, becomes the id created under that name and nothing else changes; it fails exactly when one is unknown |
| `ReferencePlaces.ArgsResolveExactly` | src/jmap_bridge/dispatch.py:63-121 | result references: the argument of each "#name" is what the path collects in the latest result under the tag, the others stay; they fail exactly when one is malformed, points at no result or an error, or leads nowhere |
| `BatchAnswers.EveryCallIsAnswered` | src/jmap_bridge/dispatch.py:229-290 | every call of an answered request: the handler's answer to the arguments with every reference of both kinds followed, or an error, whatever the handler, exactly when one leads nowhere |
| `BatchAnswers.OtherCallsAreRefused` | src/jmap_bridge/dispatch.py:240-269 | which error a call gets that is malformed, names no method, or has no arguments object |
| `BatchAnswers.NormalIsReported` | src/jmap_bridge/dispatch.py:197-215 | what is reported of a /set result: null exactly for those of the six properties that are empty, all else as the handler gave it |
| `RequestCache.ComputedOnce` | src/jmap_bridge/context.py:47-54 | however tasks interleave, a value is computed at most once and every task gets that one |
| `RequestCache.NobodyIsStuck` | src/jmap_bridge/context.py:47-54 | in every reachable state a task that waits is two steps from its answer at most; tasks that raise or are cancelled included |
| `RequestCache.RequestContext.Perform` | src/jmap_bridge/dispatch.py:256-288 | the loop over what a handler does, with its use of the memo, and the clearing by name of one that returned, take the steps the lemmas speak of |
| `RequestCache.ReadsAreUncached` | src/jmap_bridge/dispatch.py:256-288 | while only Foo/set and Email/import write, and do not raise, every other handler reports what it would without the memo |
| `RequestCache.FreshExactly` | src/jmap_bridge/dispatch.py:265-288 | for every batch, whatever its handlers do: the memo is fresh if and only if no uncleared change since the sweep was made shows in one |
| `RequestCache.ReportsWhatWasSwept` | src/jmap_bridge/types/mailbox.py:45-64 | for every batch: a handler reports the sweep first made since the last clearing, of the store as it was then |
| `RequestCache.NewStateIsNewExactly` | src/jmap_bridge/types/email.py:1171 | a newState is the state after the write if and only if nothing was memoised before it, or the write does not show |
| `RequestCache.NewStateIsOld` | src/jmap_bridge/types/email.py:1171 | Email/get, then Email/import: its newState is the old state |
| `RequestCache.RaisedWriteIsNotSeen` | src/jmap_bridge/dispatch.py:265-288 | a write that raises: the next Email/get reports the state before it |
| `PushWatcher.ToldLastIsLatest` | src/jmap_bridge/push.py:111-133 | what a subscriber was told last is how the last poll heard found things |
| `PushWatcher.NothingToldTwice` | src/jmap_bridge/push.py:131-133 | no two messages in a row are the same |
| `PushWatcher.NothingAfterIt` | src/jmap_bridge/push.py:111-139 | after a poll that fails outside ImapError nothing is heard any more |
| `PushWatcher.ToldEverythingExactly` | src/jmap_bridge/push.py:111-139 | over any polls and failures: a queue is told everything if and only if nothing changed after the loop had ended |
| `PushWatcher.ChangeAfterFailedListIsLost` | src/jmap_bridge/backends/imap/client.py:108-118 | a change after a LIST on a lost connection reaches nobody |
| `PushWatcher.TellsAllExactly` | src/jmap_bridge/push.py:111-139 | polling goes on and every queue holds all changes since it subscribed, if and only if no poll since the task started failed outside ImapError |
| `PushWatcher.AccountWatcher.Poll` | src/jmap_bridge/push.py:111-139 | a turn that brings cursors, fails with an ImapError, or with anything else: each queue holds exactly the changes heard since it subscribed, and the loop ends with the third |
| `PushWatcher.AccountWatcher.Subscribe` | src/jmap_bridge/push.py:95-100 | a new queue starts empty; a task is started when none is set, and one that has ended is not started again |
| `PushWatcher.AccountWatcher.Unsubscribe` | src/jmap_bridge/push.py:102-109 | polling ends with the last; True exactly when nobody is left |
| `PushWatcher.AccountWatcherRegistry.Subscribe` | src/jmap_bridge/push.py:179-185 | one watcher for each key, reused while it has subscribers, even when its loop has ended |
| `PushWatcher.AccountWatcherRegistry.Unsubscribe` | src/jmap_bridge/push.py:187-190 | a watcher is on file exactly while it has subscribers, also when an old queue is given back again |
| `Base64Url.Base64RoundTrip` | src/jmap_bridge/backends/imap/modseq_state.py:129-134 | unpadded base64url with `-len % 4` put back returns every byte string |
| `Base64Url.Utf8RoundTrip` | src/jmap_bridge/backends/imap/modseq_state.py:129-134 | UTF-8 returns every string |
| `Base64Url.Utf8Exactly` | src/jmap_bridge/backends/imap/modseq_state.py:129-134 | bytes are read as a text if and only if they are what that text is written as |
| `IdSyntax.EncodesAsRfc4648` | src/jmap_bridge/backends/imap/modseq_state.py:129-134 | the text of any bytes is base64url of RFC 4648: the bits six at a time in its alphabet, zeros to fill the last group, no padding |
| `IdSyntax.LocationIdsAreIds` | src/jmap_bridge/backends/imap/modseq_state.py:137-143 | whatever a mailbox is called, email and blob ids have only the characters RFC 8620 allows in an id |
| `IdSyntax.ThreadIdsAreIds` | src/jmap_bridge/backends/imap/email_map.py:286-323 | whatever the headers hold, thread ids have only these characters; "TH" marks a header's root, "TL" a place |
| `Json.JsonRoundTrip` | src/jmap_bridge/state.py:32-69 | compact JSON is read back as it was printed |
| `StateTokens.EmailIdRoundTrip` | src/jmap_bridge/backends/imap/modseq_state.py:137-158 | an email id decodes to the location it was made from |
| `StateTokens.BlobIdRoundTrip` | src/jmap_bridge/backends/imap/email_map.py:101-115 | a blob id decodes to the location and part it was made from |
| `StateTokens.StateRoundTrip` | src/jmap_bridge/state.py:32-69 | a state token returns its payload to its own kind and is refused by any other |
| `StateTokens.DecodeMailState` | src/jmap_bridge/backends/imap/modseq_state.py:63-79 | the loop reads the cursors, or refuses |
| `StateTokens.MailStateRoundTrip` | src/jmap_bridge/backends/imap/modseq_state.py:53-79 | a mail state token decodes to the cursors it was made from |
| `StateTokens.EqualTokensExactly` | src/jmap_bridge/backends/imap/modseq_state.py:53-60 | two mail state tokens are equal if and only if the cursor maps are, in whatever order they were filled |

## Left out

- Network, SMTP, Starlette, configuration, logging, and the parsers of icalendar, vobject and the email package: they
  are libraries or I/O. Messages come as MIME trees, headers as strings, VEVENTs as records, IMAP as a step relation.
- Calendar, AddressBook, ContactCard, Identity and session handlers, their sync diffs, vCard mapping and the blob
  cache: thin next to the rest. Of Mailbox/set and Mailbox/get only their effect on the memoised sweep.
- Native IMAP SORT, and SEARCH's matching of characters: matching a text in a field is an uninterpreted relation,
  except that a header contains its own substrings.
- Redirects of mailbox, calendar and card ids, which can recur; and mailbox renames in `EmailMoves`.
- `stop()` and the background sweep's timer in the pool; real time beyond a number handed to the steps that read a
  clock.
- ThreadSearch.ThreadGet: asks for mailbox names without colons, because a location id of a name with one does not
  split back (src/jmap_bridge/types/thread.py:165).
- FilterCompiler.CompiledQueryIsExact: asks that no child of an OR or NOT is dropped and that inMailbox stands on AND
  paths and agrees; `QueryErrors.QueryIsWrongExactly` asks for neither. An empty inMailbox counts as none, as in the
  code.
- StateTokens.EmailIdRoundTrip: Python's leniency in decoding (characters outside the alphabet skipped, int() of other
  spellings, blanks in JSON, null and fractions) is not modelled, nor are lone surrogates in names.
- ThreadIds.RootIsFound: folded headers and headers given twice are not modelled.
- MimeParts.NativeIsShape: a server that stops its extension fields short of a disposition a part does have is not
  modelled; the code takes such a part to have none.
- MimeParts.ExtractBlobPart: part ids are numbers here and strings in the code; sizes, names, charsets and the other
  fields of a body part are not modelled.
- RecurrenceOverrides.ReadsWhatWasWritten: asks that no two overrides are filed under one time and that all components
  share one UID (RFC 4791 section 4.1); `ReadsOverStrays` does without either. Overrides are read only for a master
  with an RRULE (src/jmap_bridge/backends/caldav/event_map.py:481-486), which is taken to have one. A local time that
  a zone skips or repeats is not modelled, and neither are recurrence rules, participants and alerts.
- RecurrenceOverrides.ComesBackExactly: durations are seconds and zones are names as read, so a respelling, such as
  "PT60M" for "PT1H" or "UTC" for "Etc/UTC", is not seen as a change; the length to a DTEND is taken between local
  times, also when DTSTART and DTEND are in different zones.
- PatchMerge.MergePatchKeys: values are values; that a later key changes a map the patch itself carries is not
  modelled.
- Dispatch.StarPicksEach: speaks of a star before one key whose values are no lists; `PathCollectsExactly` and
  `PathResolvesExactly` speak of every path.
- Dispatch.DispatchRequest: handlers are a function of the call's place and arguments; of numbers, booleans and null
  only their identity is kept.
- BatchAnswers.EveryCallIsAnswered: asks that no method is registered as "error", and that what arrives and what handlers
  return are JSON values, whose objects name no key twice.
- EmailMoves.MailAccount.ApplyEmailUpdate: the keywords of an update, a STORE each, are left out; a whole `mailboxIds`
  set is taken as the mailboxes it keeps.
- Sorting.FirstKeyOrders: flags are compared as they are written, where the code compares them in upper case.
- RequestCache.NobodyIsStuck: that the scheduler lets a task take its steps is not modelled.
- ConnectionPool.CountIsExact: the limit of a key is fixed; `max_per_user` changing between checkouts is not modelled.
- IdRedirect.IdRedirectCache.Record: a negative bound is not modelled.
