# Linux Deep Clean: recovery ledger, clients and codecs

A Dafny model of the parts of the repository that must not lose anybody's files: the durable recovery ledger, the
clients that move content under its protection, the scanner and codecs that decide what stored bytes mean, and the
staging and descriptor code below them.

## What is modelled

- **The ledger.** Frames, their canonical bytes and digest chain, replay, append and the closed transition graph
  (`RecoveryGraph`, `RecoveryChain`, `RecoveryAppend`); from record files to sorted histories (`RecordName`,
  `LedgerRecords`, `LedgerInventory`); the directory of record files with publications that are lost, unreported or torn
  (`DurableFile`, `LedgerStore`); `Reserve` and `Transition` as functions of the directory and of the map of histories
  it stands for (`LedgerSteps`), as methods of an object (`LedgerAdapter`), over whole runs (`LedgerRuns`), and exactly
  when they succeed (`Serving`).
- **The clients.** Move, retain and the two reconcilers as programs that run one step at a time and may stop anywhere
  (`Clients`, `ClientSafety`), together with the ledger in every interleaving (`Books`, `Durability`, `Protocol`) and with
  the directory of record files (`DirectoryProtocol`), and the programs of all four as straight-line code over a ledger
  object that others use meanwhile, each a run of those machines (`ProgramRuns`, `ClientPrograms`).
- **The CBOR scanner** against a value datatype with a deterministic encoder (`Cbor`, section 4.2.1 of RFC 8949), with
  UTF-8 by the forms of scalar values (`Utf8`, section 3 of RFC 3629).
- **Staged objects** and two-pass tree removal on a map from paths to nodes (`Filesystem`, `Staging`, `StagedObjects`).
- **Plan dependencies** (`PlanGraph`), **transaction graphs** (`TransactionGraph`), **percent-encoded paths**
  (`PercentCodec`, `PathBytes`), **.trashinfo records** (`TrashInfo`, `TrashRecord`), **the Trash layout encoding**
  (`LayoutBinding`) and **descriptors** with the directories they denote (`Descriptors`).
- `Base` and `Sorting` hold bytes, results, orders, big-endian numbers and sorting.

## How to read the model

- *Outcomes of the surroundings are parameters or nondeterministic.* A ledger call takes its `Weather`: a read that
  fails, and what becomes of the publication. A step of a client takes what the kernel and its checks do. In `Staging`,
  `DurableFile` and `Descriptors` they are `*`; there `troubles` counts the errors that the system reports, so that
  success can be stated exactly.
- *Three views of the ledger.* A directory of record files, the map of histories it stands for, and the book of current
  facts the clients see. `LedgerRuns.StepRefines` ties the first two together call by call, `Protocol.LedgerAnswers` the
  last two, `DirectoryProtocol` all three; the methods of `LedgerAdapter` compute the first.
- *A torn publication* leaves a proper prefix of the frame under its final name. That it can never be taken for a frame
  is not assumed: frames are stored as CBOR items, and encodings are proved prefix-free.
- *Hypotheses.* `Faithful` says that the CBOR library reads back the frames it writes and writes data items;
  `CollisionFree` says that the hash does not collide on the schemas and stored bytes of the frames of two given
  histories, and is used only where a statement names it; `Roomy` says that the frames of a reservation fit 64 KiB and
  no digest is all zero, and is used only where a statement is about requests succeeding. `ReadsBack` says that the time
  library parses what it prints; what else it parses is left open, because the source compares the reprint.
- *Error classes.* Wrapped errors are reduced to the class a caller can test for.

## Main results

- Content is never lost from sight in any interleaving of clients, crashes, power losses and bad publications:
  `Protocol.ContentSafety`, and of the bytes on disk `DirectoryProtocol.DirectorySafety`.
- No request of a client is refused that should not be: `Serving.ReserveExactly`, `Serving.TransitionExactly`,
  `Protocol.OwnersAreServed`, `Protocol.MetadataReconcilerServed`, `Protocol.MoveReconcilerServed`; what the programs
  do, where they end and what they probe: `ClientPrograms.MutationClient.MoveToTrash`,
  `ClientPrograms.MutationClient.ReconcileMove`.
- The ledger over all runs, and as a refinement: `LedgerRuns.LedgerSafety`, `LedgerRuns.StepRefines`,
  `LedgerRuns.SilentCreation`, `LedgerInventory.ReplayAcceptsExactly`, `LedgerSteps.NeverAmbiguous`.
- Chains and their graph: `RecoveryAppend.AppendReplays`, `RecoveryAppend.SameDigestSameHistory`,
  `RecoveryAppend.ClosableExactly`, `RecoveryAppend.StuckHistoryExists`, `RecoveryGraph.LegalExactly`.
- The scanner accepts exactly the deterministic encodings: `Cbor.ScanCanonicalCbor`, `Cbor.AcceptedValueUnique`,
  `Utf8.ValidExactly`.
- Removal and staging: `StagedObjects.StagedObject.RemoveStagedTree`, `StagedObjects.UnmovedExactly`,
  `StagedObjects.StageAndRestore`, `Staging.IssuedOnce`.
- Cycles: `PlanGraph.ValidatePlanActions`. Codecs: `PercentCodec.DecodeExactly`, `TrashRecord.ParseExactly`,
  `TrashInfo.RoundTrip`, `LayoutBinding.EncodingInjective`. Normal forms: `TransactionGraph.NewTransactionGraph`,
  `TransactionGraph.ListingDoesNotMatter`. Descriptors: `Descriptors.ResolveParent`, `Descriptors.DuplicateTopology`.

## Where the source does something a reader may not expect

- The restore loop of the transition graph makes the bound of sixteen frames bite: an open recovery can be closed if and
  only if its ordinal plus its distance, one or two, is at most 15 (`RecoveryAppend.ClosableExactly`), and one that
  cannot is reachable (`RecoveryAppend.StuckHistoryExists`).
- "An error that is not an interruption means that no record was created" holds of the durable file writer and not of
  the session above it, whose closing recheck reports its own class
  (`DurableFile.PrivateLedgerSession.PublishRecord`, `LedgerRuns.SilentCreation`).
- A deletion time whose wall clock reads 0001-01-01T00:00:00 outside UTC is valid and written, and refused when read
  back (`TrashInfo.RoundTrip`, `TrashInfo.EpochEastOfUtc`).
- Parent resolution without a close implementation returns an error and leaves the root descriptor open
  (`Descriptors.ResolveParent`).
- Staging takes only EINTR and EAGAIN for a rename that may have happened, the Trash move any error outside a list of
  ten, and restoring any error outside a list of three. The model keeps all three rules over one kernel, which promises
  no effect after the ten errors only. So "no staged object means nothing moved" is false: a rename that takes effect and
  reports an error like EIO leaves the content under the token, with no object to bring it back. It holds of exactly the
  ten errors and EINTR and EAGAIN (`StagedObjects.UnmovedExactly`, `StagedObjects.ContentLost`).

## Model

| member | source | states |
|---|---|---|
| `Protocol.ContentSafety` | internal/trash/move.go:181-261 | From any readable ledger at rest, of either schema, in every interleaving of move, retain and reconcile clients with crashes, power losses, lost, unreported or torn publications and records becoming unreadable anywhere: each recovery has its content where its last recorded fact allows; content away from its source is held by an open recovery of that source whose move dispatch is on record; the source of an open recovery without that dispatch has its content; each effect is called at most once and only with its dispatch on record; a closed recovery tells the truth about its metadata entry |
| `Protocol.RunIsSafe` | internal/trash/move.go:181-261 | The same from every state that satisfies the invariant, with clients at work in it |
| `Protocol.StepIsSafe` | internal/trash/move.go:181-261 | Every single step of any client, start, crash, power loss or ledger call keeps the invariant |
| `Protocol.LedgerAnswers` | internal/state/recovery_ledger.go:1368-1427 | Whatever happens to a call, the ledger has done nothing or exactly what the client asked; without an error it has done it |
| `Protocol.GrowthIsLegal` | internal/state/recovery_ledger.go:602-671 | A ledger that grew took an edge of the transition graph, or opened a source no other open recovery names |
| `Protocol.OwnersAreServed` | internal/trash/move.go:186-260 | Against a readable ledger with spare record capacity and room in frames, no transition a move or retain client asks for after its reservation is refused |
| `Protocol.MetadataReconcilerServed` | internal/trash/reconcile.go:211-231 | In the same conditions a metadata reconciler about to resolve is served if and only if the recovery is still metadata-indeterminate |
| `Protocol.MoveReconcilerServed` | internal/trash/content_reconcile.go:228-252 | And a move reconciler if and only if it is still move-indeterminate |
| `Protocol.LegalSucceeds` | internal/state/recovery_ledger.go:1368-1427 | A transition the graph allows on a v2 history below the last ordinal succeeds when the publication does and the frames of its binding have room |
| `Protocol.IllegalFails` | internal/state/recovery_ledger.go:602-671 | A transition the graph refuses is answered with an error, whatever else happens |
| `Protocol.OldSchemaFails` | internal/state/recovery_ledger.go:486-488 | A transition of a v1 history is answered with an error, whatever else happens |
| `DirectoryProtocol.DirectorySafety` | internal/state/recovery_ledger.go:1283-1427 | The guarantee of the protocol read off the bytes: from any readable directory of record files at rest, under any interleaving of clients with crashes, lost, unreported and torn publications, records that lose their tails and power losses, whatever the directory shows when it can be read is true of where the contents are, which effects were called and which entries remain |
| `DirectoryProtocol.HappeningFollowed` | internal/state/recovery_ledger.go:1283-1427 | Whatever happens to the directory is a step of the protocol on the ledger it stands for |
| `DirectoryProtocol.CallStandsFor` | internal/state/recovery_ledger.go:1283-1427 | So is a call of the ledger, with the same answer and the same book afterwards |
| `DirectoryProtocol.RemainsSurvive` | internal/linuxfs/durable_file_linux.go:78-147 | If the directory can be read after a power loss, it shows every frame confirmed before and otherwise beginnings of the old histories; no torn or truncated record is taken for a frame |
| `DirectoryProtocol.NothingLost` | internal/linuxfs/durable_file_linux.go:78-147 | A directory left unreadable by a power loss stays unreadable |
| `DirectoryProtocol.ReadShowsBook` | internal/state/recovery_ledger.go:1564-1577 | The replayed histories show the current and past facts of every recovery |
| `Durability.CallBacked` | internal/linuxfs/durable_file_linux.go:78-147 | A confirmed publication leaves nothing in doubt; any other adds at most one frame that a power loss may take |
| `Durability.ActBacked` | internal/trash/move.go:199-228 | An effect is called only with a dispatch that no power loss can take |
| `Durability.RebootKeepsInv` | internal/linuxfs/durable_file_linux.go:78-147 | Whatever part of the unconfirmed frames a power loss takes, what is left is true |
| `ClientSafety.CallKeeps` | internal/trash/move.go:378-403 | A ledger call of one client keeps the invariant of the whole scene |
| `ClientSafety.ActKeeps` | internal/trash/move.go:199-260 | An effect, probe or reload of one client keeps the invariant of the whole scene |
| `ClientSafety.StartStopKeeps` | internal/trash/move.go:181-197 | Clients may start and stop anywhere |
| `ClientSafety.AwayMeansOpen` | internal/state/recovery_ledger.go:186-191 | Content that is not at its source is held by an open recovery of that source whose fact lies behind its move dispatch; so a source with no open recovery has its content |
| `ClientSafety.UndispatchedIsHome` | internal/state/recovery_ledger.go:186-191 | The source of an open recovery whose move was not dispatched has its content: no other recovery took it |
| `ClientSafety.EffectFollowsDispatch` | internal/trash/move.go:199-228 | A metadata write or rename is called only while its dispatch is the current durable fact, and had not been called before |
| `ClientSafety.OwnerAllowed` | internal/state/recovery_ledger.go:602-671 | The graph allows every transition the owner of a recovery asks for |
| `ClientSafety.MetadataReconcilerAllowed` | internal/trash/reconcile.go:184-231 | The metadata resolution is allowed exactly while the recovery is metadata-indeterminate |
| `ClientSafety.MoveReconcilerAllowed` | internal/trash/content_reconcile.go:201-253 | The move resolution is allowed exactly while the recovery is move-indeterminate |
| `ClientSafety.OwnerAlone` | internal/trash/move.go:378-403 | While its owner is at work on a recovery no other client changes it |
| `ClientSafety.RenameLocated` | internal/linuxfs/trash_move_linux.go:119-135 | A rename, whatever the kernel reports, leaves every content where its fact allows |
| `ClientSafety.ProbeOwnPhase` | internal/trash/content_reconcile.go:228-252 | After the content probe the content is at its destination, and stays there until the resolution |
| `Clients.ReportIsTrue` | internal/linuxfs/trash_move_linux.go:119-135 | A verified disposition is reported exactly for a confirmed rename without an error, and then the content moved; not-applied exactly if the rename did not happen whatever the kernel leaves open |
| `ClientPrograms.MutationClient.MoveToTrash` | internal/trash/move.go:181-261 | The program, statement by statement, while others use the ledger between its calls: its marks are a run of the client machine, write-ahead and silent after a refusal; any ticket it returns has the requested binding; and if its requests are granted it ends in the one fact the outcome of the write, the selection and the rename calls for, without an error exactly for a verified move |
| `ClientPrograms.MutationClient.RetainInQuarantine` | internal/quarantine/retain.go:184-235 | The same for a quarantine retain: it never asks for a metadata fact and, if its requests are granted, ends in move-verified exactly if the rename was issued, reported no error and was confirmed, and in move-indeterminate otherwise |
| `ClientPrograms.MutationClient.FinishMove` | internal/trash/move.go:230-260 | The fact each disposition leads to: a rename that cannot have applied is recorded as move-indeterminate and then resolved as not applied, one that may have stays open, and only a verified move without an error ends in move-verified |
| `ClientPrograms.MoveEndsOpen` | internal/trash/move.go:230-260 | A move that is granted everything closes its recovery if and only if the entry was written and then nothing was selected or the rename cannot have applied; it ends verified only if the content moved |
| `ClientPrograms.MutationClient.Rename` | internal/trash/move.go:223-230 | Calls the rename once, after its dispatch was granted, and reports it as the kernel and the checks allow |
| `ClientPrograms.MutationClient.Transition` | internal/trash/move.go:378-403 | Whatever others did in between, a granted transition gives a ticket with the requested fact and the same binding, and the ledger shows it; on an error the last known ticket is kept |
| `ClientPrograms.MutationClient.Reserve` | internal/trash/move.go:186-197 | A granted reservation gives an intent ticket for the requested binding, and the ledger shows it |
| `ProgramRuns.CalledOnce` | internal/trash/move.go:181-261 | In such a run each effect is called at most once |
| `ProgramRuns.AskedIsCall` | internal/trash/move.go:378-403 | A request is marked exactly as the client machine goes on after its call of the ledger, whatever the book says |
| `ProgramRuns.ActIsMarked` | internal/trash/move.go:199-230 | Every step the machine takes between its requests leaves a mark, effects and all |
| `ProgramRuns.MarkIsAct` | internal/trash/move.go:199-230 | And every such mark is left by a step that the machine can take |
| `ProgramRuns.StaysRegistered` | internal/state/recovery_ledger.go:1368-1427 | No call of anybody changes what a recovery is bound to |
| `ProgramRuns.AnswerShows` | internal/state/recovery_ledger.go:1283-1427 | Any ticket is the one asked for, and one without an error is what the ledger then shows |
| `ClientPrograms.MutationClient.Others` | internal/state/recovery_ledger.go:1283-1427 | Any number of calls of others keep the accounts: the directory is what all calls made of it, and a recovery once on record keeps its binding |
| `ClientPrograms.MutationClient.ReconcileMetadata` | internal/trash/reconcile.go:184-231 | The resolution is asked for if and only if the ticket and the recovery retained when it was reloaded await it and the probe found no entry or one that is the record of this token, basis and path; it records which; in every other case the program ends without a request and with an error |
| `ClientPrograms.MutationClient.ReconcileMove` | internal/trash/content_reconcile.go:201-253 | The move-verified resolution is asked for if and only if the reload succeeds like that and five probes in a row agree: the entry of this token, basis and path, the source gone, the content there, the source gone, the same bytes; the first probe that does not agree is the last |
| `ClientPrograms.MutationClient.ReloadIndeterminate` | internal/trash/reconcile.go:233-376 | Goes on if and only if the ledger can be read and the ticket and the retained recovery both have the expected indeterminate fact and agree with the request |
| `ClientPrograms.DescribesExactly` | internal/trash/reconcile.go:350-376 | Agreeing with the request means the same root, source, action, precondition and layout binding, the kind and destination of a Trash move, and a well-formed token |
| `ClientPrograms.BindsExactly` | internal/trash/reconcile.go:219-229 | Metadata bytes are bound to a request if and only if they are a .trashinfo record, in the exact form of the parser, of its path and basis with any date |
| `LedgerRuns.TicketIsAsked` | internal/state/recovery_ledger.go:1340-1356 | Every ticket, also one that comes with an interruption, is for the requested recovery and fact, and carries the reserved or the retained binding |
| `LedgerRuns.LedgerSafety` | internal/state/recovery_ledger.go:1283-1427 | From any readable directory, after any calls with any tickets, tokens and publication outcomes: at most 128 records, none changed; readable if and only if no publication was torn; then all histories kept and extended only at the end, closed and v1 ones not at all, and one open recovery per source at most |
| `LedgerRuns.UnreadableIsFrozen` | internal/state/recovery_ledger.go:1560-1577 | Once a read fails, no later call writes anything; no record is skipped or repaired |
| `LedgerRuns.UnreadableRefuses` | internal/state/recovery_ledger.go:1560-1577 | A call on an unreadable ledger is an error without a ticket and changes nothing |
| `LedgerRuns.RunKeepsRecords` | internal/linuxfs/private_ledger_linux.go:264-290 | No run changes or removes an existing record |
| `LedgerRuns.StepRefines` | internal/state/recovery_ledger.go:1283-1427 | Each call on the directory of records is the same call on the map of histories it stands for, with the same answer |
| `LedgerRuns.RunRefines` | internal/state/recovery_ledger.go:1283-1427 | So are whole runs |
| `LedgerRuns.RunTears` | internal/linuxfs/durable_file_linux.go:78-147 | The ledger a run stands for ends torn exactly if one of the publications of the run was torn |
| `LedgerRuns.RunGrows` | internal/state/recovery_ledger.go:1283-1427 | Histories only grow: prefixes are kept, closed and v1 histories are unchanged |
| `LedgerRuns.AnswerIsTrue` | internal/state/recovery_ledger.go:1283-1427 | A call that returns no error has published: re-reading shows its ticket, and the history is the old one plus the one frame asked for |
| `LedgerRuns.AbstractAnswers` | internal/state/recovery_ledger.go:1283-1427 | In every case the ledger is unchanged or has grown by exactly the requested frame |
| `LedgerRuns.SilentCreation` | internal/linuxfs/private_ledger_linux.go:334-353 | Exactly when a record exists although the call returned an error and no ticket: a fresh record created whole whose closing session recheck failed with a class other than interruption |
| `LedgerSteps.NeverAmbiguous` | internal/state/recovery_ledger.go:1688-1701 | After the records are accepted the search for an outstanding recovery cannot reach its ambiguity error, for any root and path |
| `LedgerSteps.NextFrameDecides` | internal/state/recovery_ledger.go:1283-1427 | The checks over the sorted histories decide the same as the checks over the map of histories |
| `LedgerSteps.LedgerHistoryFound` | internal/state/recovery_ledger.go:1720-1727 | The identity search finds exactly the history under that digest and token |
| `LedgerSteps.OutstandingIsOpen` | internal/state/recovery_ledger.go:1688-1701 | The search comes back empty if and only if no open recovery names that source |
| `LedgerSteps.SizeIsRecords` | internal/state/recovery_ledger.go:1583-1592 | The capacity count equals the number of record files |
| `LedgerSteps.ContinuesWellFormed` | internal/state/recovery_ledger.go:1653-1666 | Such a frame keeps every history replayable and every source open at most once |
| `LedgerStore.ViewSucceeds` | internal/state/recovery_ledger.go:1564-1577 | A directory can be read only if it holds the records of one well-formed ledger, and reading yields its histories |
| `LedgerStore.RepresentedView` | internal/state/recovery_ledger.go:1564-1577 | A directory that holds exactly the records of a well-formed ledger can be read |
| `LedgerStore.TornPoisons` | internal/state/recovery_ledger.go:930-970 | With a torn frame in the directory no read succeeds |
| `LedgerStore.NamesSorted` | internal/linuxfs/private_ledger_linux.go:695-698 | The inventory order is the same however the directory is enumerated |
| `LedgerAdapter.RecoveryLedger.Reserve` | internal/state/recovery_ledger.go:1283-1356 | New directory and answer, for every state and outcome |
| `LedgerAdapter.RecoveryLedger.Transition` | internal/state/recovery_ledger.go:1368-1427 | New directory and answer, for every state and outcome; of the ticket only the identity is used |
| `Serving.ReserveExactly` | internal/state/recovery_ledger.go:1283-1356 | With a confirmed publication a reservation succeeds if and only if the ledger can be read and holds fewer than 128 records, the binding is valid for the current schema, no open recovery names its source, its identity is free, and its intent fits a record |
| `Serving.ReserveSucceeds` | internal/state/recovery_ledger.go:1283-1356 | A readable directory of fewer than 128 record files with the source and the identity free grants every valid v2 binding whose frames have room |
| `Serving.FirstReservation` | internal/state/recovery_ledger.go:239-282 | A binding of each kind that an empty directory grants: a Trash move with a layout digest and a quarantine retain without one |
| `Serving.ReserveRefusal` | internal/state/recovery_ledger.go:1283-1363 | An invalid binding is unsupported, a full ledger or a source in use a conflict |
| `Serving.TransitionExactly` | internal/state/recovery_ledger.go:1368-1427 | With a confirmed publication and room for the frames of the recovery a transition succeeds if and only if the ledger can be read and holds fewer than 128 records, the recovery is on record under schema v2 with fewer than sixteen frames, and the graph allows it |
| `Serving.TransitionRefusal` | internal/state/recovery_ledger.go:1368-1427 | An identity that no ledger holds and a v1 history are unsupported; an unknown recovery, a full ledger, a full history and a closed recovery are conflicts |
| `LedgerAdapter.RecoveryLedger.ReadHistories` | internal/state/recovery_ledger.go:1564-1577 | Lists, reads and replays all records |
| `LedgerAdapter.RecoveryLedger.List` | internal/linuxfs/private_ledger_linux.go:317-332 | All record identities, once each, in ascending order of their names |
| `LedgerAdapter.RecoveryLedger.FindOutstandingFor` | internal/state/recovery_ledger.go:1432-1459 | Invalid roots and paths are unsupported; a readable ledger always gives an answer |
| `LedgerAdapter.RecoveryLedger.ListOutstanding` | internal/state/recovery_ledger.go:1464-1488 | All open recoveries, or an error if there are more than the limit or the limit is not from 1 to 128 |
| `LedgerAdapter.AllOpenJoin` | internal/state/recovery_ledger.go:1464-1488 | The open recoveries are those of the histories, one by one and in their order, the closed ones left out |
| `LedgerAdapter.RecoveryLedger.Reload` | internal/state/recovery_ledger.go:1493-1521 | The retained state of the identity, or a conflict if it is not retained |
| `DurableFile.PrivateLedgerSession.PublishFileDurableAt` | internal/linuxfs/durable_file_linux.go:78-147 | Succeeds if and only if the contents are small enough, the name is free and the system reports no error. Every outcome of create, write loop, sync and verification is one of: nothing created, created whole, a proper prefix under the final name; any report but an interruption means nothing was created |
| `DurableFile.PrivateLedgerSession.PublishRecord` | internal/linuxfs/private_ledger_linux.go:264-290 | The same under the session, which must be open, writable and below 256 records, except that a failed closing recheck is reported as it is although the record exists |
| `DurableFile.PublishInSession` | internal/linuxfs/private_ledger_linux.go:137-158 | A session serves one callback and is dead afterwards; a lock that cannot be released is reported as an interruption and undoes nothing |
| `LedgerInventory.ReplayAcceptsExactly` | internal/state/recovery_ledger.go:1594-1651 | Records are accepted if and only if there are 128 at most and they are a listing, each record once and in any order, of a well-formed ledger |
| `LedgerInventory.ListingReplays` | internal/state/recovery_ledger.go:1594-1651 | Every listing of a well-formed ledger replays, to its histories in key order |
| `LedgerInventory.ReplayedIsListing` | internal/state/recovery_ledger.go:1594-1651 | Whatever replays lists a well-formed ledger: distinct identities, every history complete and chained, one open recovery per source |
| `LedgerInventory.OrderIndependent` | internal/state/recovery_ledger.go:1594-1651 | Every permutation of the records succeeds or fails alike and gives the same sorted histories |
| `LedgerInventory.FlattenReplays` | internal/state/recovery_ledger.go:1594-1651 | Writing the replayed histories back as records and replaying them is the identity, and gives back the same records |
| `LedgerInventory.UniqueMeansOneOpen` | internal/state/recovery_ledger.go:1653-1666 | Unique source keys say exactly that no source is open twice |
| `LedgerRecords.ReplayLedgerRecords` | internal/state/recovery_ledger.go:1594-1651 | The whole replay as it is done |
| `LedgerRecords.CollectGroups` | internal/state/recovery_ledger.go:1604-1625 | The first loop: decode all, refuse a repeated identity, group |
| `LedgerRecords.ReplaySortedGroups` | internal/state/recovery_ledger.go:1637-1646 | The second loop: sort and replay each group |
| `LedgerRecords.SortKeys` | internal/state/recovery_ledger.go:1627-1636 | The key order does not depend on the order in which the map is ranged over |
| `LedgerRecords.KeyOrderExactly` | internal/state/recovery_ledger.go:1631-1636 | The order of the keys is the order of their record names |
| `LedgerRecords.EnsureUniqueOutstandingSources` | internal/state/recovery_ledger.go:1653-1666 | Passes exactly if open histories have different source keys |
| `LedgerRecords.SourceKeyInjective` | internal/state/recovery_ledger.go:1668-1686 | Two valid bindings have the same key if and only if they have the same root and path |
| `LedgerRecords.DecodeRecordExactly` | internal/state/recovery_ledger.go:1605-1621 | A record is decoded to a frame if and only if it is exactly the record of that frame |
| `RecoveryChain.ReplayRecoveryFrames` | internal/state/recovery_ledger.go:519-568 | The replay loop |
| `RecoveryChain.ReplayAccepts` | internal/state/recovery_ledger.go:519-568 | Replay succeeds if and only if every frame is valid, in place, bound alike, chained by digest and allowed by the graph; the recovery is read off the last frame |
| `RecoveryChain.PrefixReplays` | internal/state/recovery_ledger.go:519-568 | Every non-empty prefix of a replayable history replays |
| `RecoveryChain.DecodeIsInverse` | internal/state/recovery_ledger.go:905-970 | Bytes decode to a frame if and only if the frame encodes to those bytes |
| `RecoveryChain.TornNeverDecodes` | internal/state/recovery_ledger.go:930-970 | A proper prefix of an encoded frame decodes as no frame |
| `RecoveryChain.DigestIsHash` | internal/state/recovery_ledger.go:972-992 | The digest of a frame is the hash of its schema and all of its stored bytes |
| `RecoveryChain.BindingExactly` | internal/state/recovery_ledger.go:324-447 | Which bindings are valid under which schema: payload, root, source, identity, kind with its destination, and a layout digest exactly for a v2 Trash move |
| `RecoveryChain.FrameExactly` | internal/state/recovery_ledger.go:723-762 | Which frames are valid: an intent exactly at ordinal 0 and there only without a predecessor, and outcomes for reconciliations only |
| `RecoveryAppend.AppendReplays` | internal/state/recovery_ledger.go:481-515 | A v2 history grows by a frame if and only if append produces that frame and it can be encoded; the longer history replays to the shorter one's recovery after apply |
| `RecoveryAppend.SameDigestSameHistory` | internal/state/recovery_ledger.go:972-992 | The last digest of a replayable history determines the whole history, frame by frame, unless the hash itself collides on the schemas and stored bytes of two frames of the two histories |
| `RecoveryAppend.SuccessorBinds` | internal/state/recovery_ledger.go:536-565 | Replay accepts one successor after two histories only if the hash is the same for the schemas and stored bytes of their last frames; where these frames differ, so do the bytes, and the hash collides |
| `RecoveryAppend.HistoryIsPath` | internal/state/recovery_ledger.go:519-568 | The facts of a replayable history are a path of the graph with five restore dispatches at most |
| `RecoveryAppend.ClosableExactly` | internal/state/recovery_ledger.go:489-491 | An open replayable history can be extended to a closed one if and only if it is v2 and its ordinal plus its distance is at most 15 |
| `RecoveryAppend.StuckHistoryExists` | internal/state/recovery_ledger.go:489-491 | An open history of sixteen frames with five restore dispatches is reachable and can never be closed |
| `RecoveryAppend.AppendAllIsPath` | internal/state/recovery_ledger.go:481-515 | A sequence of successful appends follows the graph and the ordinal bound |
| `RecoveryAppend.LegalPathAppends` | internal/state/recovery_ledger.go:481-515 | A path of the graph that fits the ordinals can be appended |
| `RecoveryGraph.LegalExactly` | internal/state/recovery_ledger.go:602-721 | The transition check, with its reconciliation checks, accepts a fact exactly if it is one of the listed successors of the current one; the successors are written out as a table |
| `RecoveryGraph.ClosedExactly` | internal/state/recovery_ledger.go:186-191 | A recovery is closed exactly when the graph lets nothing follow |
| `RecoveryGraph.DispatchedOnce` | internal/state/recovery_ledger.go:602-671 | A path holds one move dispatch and one metadata dispatch at most |
| `RecoveryGraph.Neighbours` | internal/state/recovery_ledger.go:602-671 | Nothing follows a closed fact; a Trash move dispatch directly follows verified metadata; a restore dispatch directly follows a verified move; an indeterminate fact is followed by a reconciliation only; two dispatches are never adjacent |
| `RecoveryGraph.DispatchShows` | internal/state/recovery_ledger.go:602-671 | The current fact of an open recovery tells whether its move dispatch is among its facts |
| `RecoveryGraph.QuarantineHasNoMetadata` | internal/state/recovery_ledger.go:680-691 | A quarantine path records no metadata event and no retained metadata |
| `RecoveryGraph.RestoreBudget` | internal/state/recovery_ledger.go:653-668 | How many frames each restore dispatch costs, by stage |
| `RecoveryGraph.AtMostFiveRestores` | internal/state/recovery_ledger.go:517-523 | Sixteen frames hold five restore dispatches at most |
| `RecoveryGraph.RoundsAreLegal` | internal/state/recovery_ledger.go:602-671 | The bounds are met: the restore loop can be run to the last ordinal |
| `RecoveryGraph.ClosedFrom` | internal/state/recovery_ledger.go:602-671 | From any fact on a path a closed one is exactly its distance of legal steps away |
| `RecoveryGraph.NoShorterWay` | internal/state/recovery_ledger.go:602-671 | And no nearer |
| `Base.LessExactly` | internal/state/recovery_ledger.go:1631-1636 | The order that sorts histories puts the shorter of two texts first if the other extends it, and else decides at the first byte where they differ |
| `RecordName.NamesRoundTrip` | internal/linuxfs/private_ledger_linux.go:701-725 | A file name is read as an identity if and only if the identity is valid and the name is the one derived from it |
| `RecordName.BasenamesDiffer` | internal/linuxfs/private_ledger_linux.go:83-85 | Different identities have different names |
| `RecordName.IdExactly` | internal/linuxfs/private_ledger_linux.go:50-85 | Which identities are valid, byte by byte, and the 155 bytes of their names |
| `RecordName.SplitExactly` | internal/trash/metadata.go:98-98 | Splitting at a byte undoes joining parts without that byte, and nothing else |
| `PathBytes.PathExactly` | internal/pathbytes/byte_path.go:132-153 | A path is a non-empty list of file names without NUL and slash, none of them empty, one dot or two |
| `PathBytes.StableIdExactly` | internal/domain/identifiers.go:341-358 | Which stable identifiers are valid, letter by letter |
| `Cbor.ScanCanonicalCbor` | internal/planproto/limits.go:126-144 | Data is accepted if and only if the limits are valid, it fits the frame size, and it is the deterministic encoding of a value within the budgets |
| `Utf8.ValidExactly` | internal/planproto/limits.go:167-167 | A text is accepted if and only if it is the concatenation of the UTF-8 forms of some Unicode scalar values |
| `Utf8.FormsInjective` | internal/planproto/limits.go:167-167 | No text is the forms of two sequences of scalar values |
| `Cbor.MapRules` | internal/planproto/limits.go:187-236 | What a map must be like: its depth, number of pairs and strictly ascending encoded keys, and the bounds on the arrays called components and actions and on a map with components |
| `Cbor.LimitsExactly` | internal/planproto/limits.go:45-95 | Limits are valid exactly if all are positive and the narrower ones stay within the wider ones; the default ones are |
| `Cbor.ScanCborItem` | internal/planproto/limits.go:146-247 | The recursive scan finds exactly the item at an offset and where it ends, with depth, counts, scalars, ascending keys and UTF-8 checked |
| `Cbor.ScanCborMap` | internal/planproto/limits.go:195-236 | The map loop: pairs in strictly ascending order of encoded keys, and the budgets of the two known members |
| `Cbor.ParseSound` | internal/planproto/limits.go:146-247 | What parses is the encoding of a value within the budgets |
| `Cbor.ParseComplete` | internal/planproto/limits.go:146-247 | Every encoding of a value within the budgets parses, to that value |
| `Cbor.ArgumentSound` | internal/planproto/limits.go:305-355 | An accepted head is the shortest one |
| `Cbor.ArgumentComplete` | internal/planproto/limits.go:305-355 | The shortest head is accepted |
| `Cbor.Unambiguous` | internal/planproto/limits.go:146-247 | An encoding followed by anything is read in one way only: items are self-delimiting |
| `Cbor.PrefixFree` | internal/planproto/limits.go:146-247 | No encoding is a proper prefix of another |
| `Cbor.AcceptedValueUnique` | internal/planproto/limits.go:126-144 | An accepted frame denotes one value |
| `StagedObjects.StagedObject.RemoveStagedTree` | internal/linuxfs/remove_linux.go:55-142 | Succeeds if and only if the object is verified and authorized, the entry is the expected one, everything below is a file or directory with a proper name at most 120 levels down, and the system reports no error; then exactly the staged subtree is gone. A failure before the first unlink leaves the tree untouched; after it the object is indeterminate and no entry outlives its directory |
| `StagedObjects.StagedObject.RestoreNoReplace` | internal/linuxfs/stage_linux.go:405-470 | Succeeds if and only if the entry is the expected one, its name is free, and neither the rename nor anything else reports an error; then exactly the subtree is renamed back. In every other case the tree is as before or renamed back; a failed rename retains the object for EEXIST, ENOTEMPTY and EXDEV only |
| `StagedObjects.StagedObject.VerifyStagedIdentity` | internal/linuxfs/stage_linux.go:355-385 | Succeeds if and only if the object is verified, the entry is the expected one and the system reports no error; a mismatch retains it for good |
| `StagedObjects.StagedObject.CloseObject` | internal/linuxfs/stage_linux.go:232-244 | Closing leaves the entry as it is |
| `StagedObjects.StageNoReplace` | internal/linuxfs/stage_linux.go:271-350 | Tree, object and error are those of the staging decision for every outcome of the checks, the rename and the syncs; it succeeds if and only if nothing refuses, the source is the expected one, the token is free and the rename and the syncs report no error, and then the subtree has moved to the token |
| `StagedObjects.MovedWithoutObject` | internal/linuxfs/stage_linux.go:330-337 | Staging moves content and returns no object exactly if the rename took effect and was reported with an error that is neither one of the ten that exclude an effect nor EINTR or EAGAIN; the content is then under the token and the caller is told that it drifted |
| `StagedObjects.UnmovedExactly` | internal/linuxfs/stage_linux.go:661-663 | Returns without an object after a rename that reported a given error always leave the tree alone if and only if the error is one of the ten, or EINTR or EAGAIN |
| `StagedObjects.ContentLost` | internal/linuxfs/stage_linux.go:330-337 | A run in which that happens, for every other error |
| `StagedObjects.StageAndRestore` | internal/linuxfs/stage_linux.go:271-470 | Staging and restoring succeed together if and only if nothing fails on the way, and leave the filesystem as it was |
| `StagedObjects.RenameNoReplace` | internal/linuxfs/stage_linux.go:657-663 | Never over an existing entry; after any error outside the ten that exclude an effect the entry may have moved |
| `Staging.IssuedOnce` | internal/linuxfs/stage_linux.go:405-470 | In the whole life of an object at most one call renames back or unlinks, and it found the object verified |
| `Staging.NeverVerifiedAgain` | internal/linuxfs/stage_linux.go:316-385 | Verified, once left, is never entered again |
| `Staging.RestoredOrRemoved` | internal/linuxfs/stage_linux.go:405-470 | An object that was ever restored was never removed |
| `Staging.Disk.PreflightTree` | internal/linuxfs/remove_linux.go:155-188 | The first pass changes nothing and, without an error of the system, accepts exactly what may be removed |
| `Staging.Disk.RemoveVerifiedEntry` | internal/linuxfs/remove_linux.go:194-246 | The second pass, without an error of the system, removes exactly the subtree if it may be removed; else some of it, children first; the effect flag is set before anything is unlinked |
| `Staging.RemovableExactly` | internal/linuxfs/remove_linux.go:155-188 | What may be removed: files and directories only, with proper names, at most 120 levels below the staged entry |
| `Staging.ErrorsExactly` | internal/linuxfs/stage_linux.go:661-674 | Which errors of a rename staging takes for uncertain and for unsupported, and which restoring takes for no effect |
| `Filesystem.RenameBack` | internal/linuxfs/stage_linux.go:405-470 | Renaming a subtree back undoes the rename |
| `Filesystem.RenamedMoves` | internal/linuxfs/stage_linux.go:657-659 | A rename to a free place moves the subtree and nothing else |
| `PlanGraph.ValidatePlanActions` | internal/domain/plan.go:232-272 | Accepts a plan if and only if its actions are sound and can be carried out in some order, each with its own identifier and after its dependencies, each of which it lists once; equally, if and only if identifiers are unique, dependencies known, distinct and not its own, and there is no cycle |
| `PlanGraph.SearchCycles` | internal/domain/plan.go:264-271 | The search over all actions succeeds if and only if there is no cycle |
| `PlanGraph.Search.Visit` | internal/domain/plan.go:282-298 | Visits a node: all it depends on is ordered before it, or there is a cycle |
| `PlanGraph.OrderedIsAcyclic` | internal/domain/plan.go:232-272 | What can be ordered has no cycle |
| `PercentCodec.DecodeExactly` | internal/pathbytes/trash_percent_codec.go:39-109 | Decoding accepts a text if and only if it is the encoding of a valid path within the three budgets, and yields exactly that path |
| `PercentCodec.PercentDecodeWithLimits` | internal/pathbytes/trash_percent_codec.go:39-109 | The two passes accept and yield what the exact decoder does |
| `PercentCodec.PercentEncode` | internal/pathbytes/trash_percent_codec.go:8-27 | Encodes a valid path; nothing for an invalid one |
| `PercentCodec.ByteExactly` | internal/pathbytes/trash_percent_codec.go:111-127 | Letters, digits and four marks stand for themselves, every other byte for a percent sign and its two capital hexadecimal digits |
| `PercentCodec.EncodeJoin` | internal/pathbytes/trash_percent_codec.go:8-27 | The encoding of a component is the encodings of its bytes in order |
| `PercentCodec.EncodeSeparates` | internal/pathbytes/trash_percent_codec.go:8-27 | The encoding of a path is the encodings of its components in order, with one slash between any two |
| `PercentCodec.EncodingIsInjective` | internal/pathbytes/trash_percent_codec.go:8-27 | Two valid paths never share an encoding |
| `PercentCodec.ParseSound` | internal/pathbytes/trash_percent_codec.go:64-107 | What decodes re-encodes to the same text |
| `PercentCodec.ParseComplete` | internal/pathbytes/trash_percent_codec.go:64-107 | Every encoding decodes to what was encoded |
| `PercentCodec.EscapeExactly` | internal/pathbytes/trash_percent_codec.go:84-96 | An escape is accepted exactly in upper-case form and for reserved bytes only |
| `PercentCodec.RoundTrip` | internal/pathbytes/trash_percent_codec.go:29-34 | With the default budgets decoding undoes encoding |
| `TrashInfo.RoundTrip` | internal/trash/metadata.go:62-132 | A valid record is read back with its token, basis, path and wall clock, unless the wall clock reads 0001-01-01T00:00:00, which is refused |
| `TrashInfo.EpochEastOfUtc` | internal/trash/metadata.go:186-213 | That reading occurs: east of UTC it is a valid deletion time, is written, and cannot be read back |
| `TrashInfo.MarshalSucceeds` | internal/trash/metadata.go:62-78 | The size error of the writer is unreachable for valid records |
| `TrashInfo.IdleLineIgnored` | internal/trash/metadata.go:103-118 | Within the size bound a further line that is no group header and names no key, or repeats one already there, does not change the result |
| `TrashInfo.ParseTrashInfo` | internal/trash/metadata.go:84-132 | The loop over the lines finds what the record says |
| `TrashRecord.ParseExactly` | internal/trash/metadata.go:84-132 | The parser accepts a text for a token and a basis if and only if the token is well-formed and the text is a record: at most a mebibyte without NUL and carriage return, the header first, and before another group a first Path and a first DeletionDate, in any order, that are the texts of a valid path within the budgets and of a valid date; it yields just these |
| `TrashRecord.MarshalExactly` | internal/trash/metadata.go:62-78 | The writer accepts exactly the valid records and writes this one text |
| `TrashRecord.TokenExactly` | internal/trash/metadata.go:226-239 | A token is ldc- and 16 to 241 small hexadecimal digits |
| `TrashRecord.Gregorian` | internal/trash/metadata.go:186-197 | Years count as in the Gregorian calendar, back to the year one |
| `TrashRecord.MonthsFollow` | internal/trash/metadata.go:186-197 | The last second of every month is one before the first of the next |
| `TrashRecord.UnixEpoch` | internal/trash/metadata.go:186-197 | The first second of 1970 is 719162 days after the zero time |
| `TrashRecord.FormatExample` | internal/trash/metadata.go:16-18 | A date as the layout prints it |
| `TrashInfo.DateExactly` | internal/trash/metadata.go:199-213 | A date is accepted if and only if it is the canonical text of a valid clock reading other than the first second |
| `TrashInfo.ZeroInUtc` | internal/trash/metadata.go:186-197 | In UTC only the first second is the zero time |
| `TrashInfo.FormatReads` | internal/trash/metadata.go:62-78 | The printed date has its separators in place, and reading its six numbers back gives the clock that was printed |
| `TrashInfo.LayoutReadsBack` | internal/trash/metadata.go:199-213 | Reading the fixed columns of the layout is a parser that meets the promise asked of the time library |
| `TransactionGraph.ListingDoesNotMatter` | internal/domain/transaction_graph.go:142-157 | All listings of the same facts, sorted by any algorithm, are accepted alike and give one graph |
| `TransactionGraph.NormalisingAgainChangesNothing` | internal/domain/transaction_graph.go:142-157 | An accepted graph is its own and only sorted form |
| `TransactionGraph.NewTransactionGraph` | internal/domain/transaction_graph.go:142-157 | Returns a graph if and only if the facts given are consistent: a sound header, one node with a version for every reference, edges of the four reasons between different nodes and none twice, and a guarantee that covers the right number of nodes, all of them for an exact graph; the graph returned has the same facts in order |
| `TransactionGraph.Validate` | internal/domain/transaction_graph.go:159-209 | True exactly for accepted graphs |
| `TransactionGraph.AcceptsExactly` | internal/domain/transaction_graph.go:89-209 | Validation accepts exactly the graphs whose facts are consistent and listed in order |
| `TransactionGraph.FindNode` | internal/domain/transaction_graph.go:219-224 | Binary search finds a reference exactly if some node has it |
| `TransactionGraph.AcceptedGraph` | internal/domain/transaction_graph.go:159-209 | No edge of an accepted graph dangles or loops, and an exact-graph guarantee covers exactly its nodes |
| `TransactionGraph.RefOrder` | internal/domain/transaction_graph.go:254-268 | The reference comparison is a strict total order |
| `TransactionGraph.OrdersExactly` | internal/domain/transaction_graph.go:226-268 | References are ordered by identifier and scope, edges by source, target and reason |
| `LayoutBinding.EncodingInjective` | internal/mounts/trash_lease_linux.go:707-725 | Two valid layouts with the same encoding are equal |
| `LayoutBinding.EncodeTrashLayoutBinding` | internal/mounts/trash_lease_linux.go:707-725 | The encoder writes exactly the tagged fields in their order |
| `LayoutBinding.LayoutTable` | internal/mounts/trash_lease_linux.go:707-725 | Which field stands where, under which tag and with which value |
| `LayoutBinding.ExpectationTable` | internal/mounts/trash_lease_linux.go:770-787 | The sixteen tags of an expectation, and the number or text under each |
| `LayoutBinding.FieldsUnambiguous` | internal/mounts/trash_lease_linux.go:731-736 | The bytes determine the sequence of fields |
| `Descriptors.ResolveParent` | internal/linuxfs/resolve_linux.go:392-452 | Succeeds if and only if the input is sound and the system reports no error, and then owns just one descriptor more, of the directory under the root that all components but the last name; on an error nothing is left open, except that without a close implementation the root stays with the caller |
| `Descriptors.WalkToParent` | internal/linuxfs/resolve_linux.go:415-446 | The traversal: where it is after each component, a failed close that is not retried, and nothing leaked |
| `Descriptors.OpenPlannedParentBeneath` | internal/linuxfs/resolve_linux.go:149-190 | The same for the second walk, which refuses reserved descriptors |
| `Descriptors.NewTrashDescriptors` | internal/mounts/trash_lease_linux.go:119-168 | Succeeds if and only if the numbers are sound and the system reports no error; then role by role a new descriptor not below 3 denotes the same directory and the given one is closed; on an error all are closed once |
| `Descriptors.CloseOwned` | internal/mounts/trash_lease_linux.go:174-186 | Each distinct real descriptor is closed once |
| `Descriptors.DuplicateTopology` | internal/mounts/trash_lease_linux.go:845-898 | Succeeds if and only if no duplicating call misbehaves; then role by role a new descriptor denotes the same directory as the role; with an error everything duplicated is closed and no descriptor of the lease is touched, whatever numbers the call returns |

## Left out

- Real system calls: `renameat2`, `openat2`, `fsync`, `flock` and `statx` are outcomes with the contracts stated on the methods; mount and kernel qualification and mountinfo parsing are not part of this model.
- LedgerRuns.LedgerSafety: a frame is torn when it is published or never; records that go, or lose their tails, later are steps of `Protocol` and `DirectoryProtocol`.
- A power loss that undoes an effect: contents and metadata entries are taken to stay where a rename or write put them, also if it was not yet synced; what a power loss may take is frames. A confirmed publication is taken to make every earlier record durable.
- The projection of an action payload to the facts of a binding (`recovery_ledger.go:243-282`, `:376-391`) is one uninterpreted predicate; the payload stands for action, plan digest and precondition.
- The wire form of a frame and the reflection layer of the CBOR library are the functions `wire` and `unwire` of a `Codec`; the plan decoder above the scanner is not part of this model.
- Entries of the private directory that are no ledger records: they are ignored by the inventory, or make every read fail before records are looked at; lock initialisation and the 272-entry scan bound.
- Context cancellation inside a ledger read is one `unreadable` outcome; which record it struck is not told apart.
- Third parties that move content or metadata while clients run; nested sources, where moving a directory moves a source inside it.
- A restore orchestrator: restore facts are part of the graph and the chain laws and may be on record from before, but no client records them.
- Protocol.ContentSafety: sources are independent entries of pinned parent directories, as the nested-source line above says.
- ClientPrograms.MutationClient.ReloadIndeterminate: action identity and precondition are compared as one `subject` of the payload, read by an uninterpreted function; the request that the outer call derives from the reloaded ticket and its authority is a parameter.
- Protocol.MoveReconcilerServed: covers the resolution, not the probes before it, which stop on any failure.
- ClientPrograms.MutationClient.MoveToTrash: the checks that the returned ticket has the requested token, event and binding are not repeated, because `LedgerRuns.TicketIsAsked` proves that they pass.
- StagedObjects.StageNoReplace: the checks of the request and of the two directories are one outcome; the directories are taken to exist, apart from each other and from the entry.
- Staging.Disk.PreflightTree: a failure of an open or a read is any failure; the error class of a refused entry is not modelled.
- Descriptors.DuplicateTopology: the requalification of the lease before it, and the check that each duplicate is a directory, are one outcome each; the pair form `duplicateWithFcntl` has the same loop for two roles.
- Two staged objects at work in one directory: an object's promises about its content hold while nothing else changes the tree.
- TransactionGraph.NewTransactionGraph: provider, digest, identifier and scope checks are given as predicates.
- PlanGraph.ValidatePlanActions: the other checks of an action are its `sound` flag.
- TrashInfo.DateExactly: forms of a date that the time library takes besides its own print are refused by the reprint comparison and are not enumerated.
- The JSON codec, DTO conversion, schema-shape checks, identifiers, exit summaries, size facts, registries, evidence comparisons, the command line and build information: they would add easy members only.
