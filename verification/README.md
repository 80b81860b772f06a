# Verification of the Automerge core behind the R package

The R package `automerge` wraps a vendored Rust library for documents that many
replicas change at once. This project models the parts of that library that
carry its guarantees, and proves them in Dafny 4.11:

- **The sync protocol.** Two peers exchange messages over in-order channels, with
  any interleaving of local changes, sends, deliveries and broken connections.
  What they refrain from sending twice has arrived or is on its way. Peers that
  fall silent agree, in all runs, exactly if what the queue of either document
  misses at the start is applied in the other; what they take to be shared is
  shared, in all runs, exactly if what waits in either queue is. Exchanging
  messages in rounds always ends, whatever the documents are, within a bound. A
  peer that loses all its data at any point of a run gets it back, if it speaks
  before it commits. The
  imperative `generate`/`receive` and the R function `am_sync` are proved against
  these steps, so `am_sync` is shown totally correct.
- **The history.** A change graph with a threaded edge list, per-actor indexes
  and partly cached vector clocks. Clocks are exact whatever is cached. "All but
  the ancestors of these heads" comes out the same by clock slices as by
  depth-first search exactly when each actor's changes form a chain; the
  document keeps them so in its transactions, and in merges and received changes
  if what comes in does.
- **The actor table.** Renumbering keeps the meaning and the order of ids.
- **Merging.** Any history of commits and merges over any number of replicas
  leaves each with exactly the work that reached it.
- **Incremental saves** lose nothing and repeat nothing, whatever changes build
  on.
- **The sequence tree.** A B-tree by position reads as a plain sequence and keeps
  its shape.
- **Marks.** The incrementally kept winning marks are those of the open marks;
  calculated ranges are a faithful and maximal run-length view.
- **Run-length columns.** Splicing and searching encoded slabs agree with the
  flat sequence.
- **Wire formats.** Messages, cursors and object ids are read back from their
  encodings; cursors and object ids in bytes from nothing else.

`dafny verify dfyconfig.toml` checks everything.

## Files

| file | content |
|---|---|
| `Wrappers.dfy` | optional values, results, repeated values |
| `Dag.dfy` | changes, ancestors, heads, closed histories |
| `Bloom.dfy` | the Bloom filter of a summary |
| `SyncProtocol.dfy`, `SyncRuns.dfy`, `SyncSelection.dfy`, `SyncConvergence.dfy`, `SyncLimits.dfy` | the protocol as functions; its runs; what is selected; termination; for which documents it keeps its promises |
| `SyncLoss.dfy`, `SyncVersions.dfy`, `SyncEffects.dfy` | peers that lose their data; versions of messages; what a message changes about what is sent next |
| `ChangeGraph.dfy` | the change graph |
| `Actors.dfy`, `Histories.dfy`, `DocumentParts.dfy`, `Document.dfy` | the document and what it rests on |
| `SyncDoc.dfy` | the protocol as the document carries it out, and the loop |
| `Replicas.dfy`, `Autosave.dfy` | many replicas; saving |
| `Weaving.dfy`, `SequenceTree.dfy` | the sequence tree |
| `Marks.dfy`, `MarkRanges.dfy` | marks |
| `RunLengths.dfy`, `BooleanColumn.dfy`, `SortedSearch.dfy` | columns |
| `WireFormats.dfy`, `WireSamples.dfy` | byte and text forms; single values of them, byte by byte |

## How the model stands to the program

- A change hash covers the content of a change and the hashes of its
  dependencies. A `Change` therefore holds the changes it depends on and stands
  for its own hash; acyclicity follows. Sorted vectors of hashes are sets where
  only membership matters.
- Objects whose methods update fields are classes with those fields; vectors
  and maps that are updated are `seq` and `map` fields. The parallel vectors of
  the change graph form one value, `NodeTable`.
- Each method is proved against a function or predicate of its own, about which
  the lemmas speak. For the sync protocol those functions are the steps of the
  transition system.
- A hash map whose order matters to nobody is walked in arbitrary order, and the
  results do not depend on it.
- Counters are unbounded; 32-bit overflow is assumed not to occur. Sizes that
  the program bounds by `usize::MAX` to mean "no bound" are `None`.
- Numbers of changes are not assumed to be in order. The program asserts that a
  change it applies continues the list of its actor
  (`src/automerge/rust/automerge/src/change_graph.rs:531-532`). The model follows
  it: applying changes has the outcome `AssertionFailed`, and
  `Documents.Automerge.ApplyChanges` says for which batches it comes back. Nor are
  numbers assumed to be used once or to start from 1: the results say that an
  error comes back exactly when a number is used twice or is 0.
- A document is sound if its parts fit together, and valid if moreover each of
  its changes builds on its actor's previous one. Local work keeps a document
  valid, isolated work if each change holds an operation; receiving and merging do so if what comes in builds on its predecessors.

## Where the code falls short of the obvious claim

- A splice that takes all values out of a slab and puts none in leaves a
  Boolean column unchanged: no slab comes out, which is taken to mean that nothing
  had to be done (`src/automerge/rust/hexane/src/cursor.rs:376-387`);
  `BooleanColumns.LastValueStays` is an input. A second family of splices makes the
  program panic: a deletion from the start of a slab to the end of a run of false
  writes an empty run, and when the bytes of the rest leave no room for that byte
  the writer ends a slab without values
  (`src/automerge/rust/hexane/src/slab/writer.rs:426-436`), which an assertion
  refuses (`src/automerge/rust/hexane/src/cursor.rs:198-205`);
  `BooleanColumns.FullSlabBursts` is an input. `BooleanColumns.ColumnData.SpliceValues`
  states that these are the only two exceptions.
- The fast complement is right for all heads exactly when each actor's changes
  form a chain (`ChangeGraphs.FastComplementIsExact`); each missing link breaks
  it for some heads (`ChangeGraphs.UnlinkedHistory`). A document comes to such a
  history when it receives a change that does not build on its actor's previous
  one: the change is accepted once that one is applied
  (`Histories.UnlinkedIsAccepted`). For a document the slices are right exactly when
  there is no such change (`SyncDocs.DocumentSlices`).
- Whether a set of changes is accepted or makes the program panic may depend on
  the order in which they arrive (`Histories.UnlinkedIsAccepted`). They are accepted
  in every order that respects dependencies if and only if the number before each
  is applied already or belongs to an ancestor (`Histories.EveryOrderContinues`).
- A peer that is asked for a change it has not applied does not answer at all
  (`src/automerge/rust/automerge/src/sync.rs:223`). So a queued change that waits for
  something the other side has not applied can bring the peers to rest with
  different documents: `SyncLimits.SilentWithDifferentHeads` is an input, and
  `SyncLimits.RoundsEndApart` shows that `am_sync` ends without agreement whenever a
  queue waits for something nobody has. Peers that fall silent agree in all runs if
  and only if each side has applied what the queue of the other misses
  (`SyncLimits.AgreementExactly`).
- A queued change that becomes ready while peers sync counts as a head both
  share, although it did not come from the other side
  (`src/automerge/rust/automerge/src/sync.rs:710-734`):
  `SyncLimits.QueuedIsTakenForShared` is an input. Shared heads are shared, and
  requests are met, in all runs if and only if each side has applied what the other
  queues (`SyncLimits.SharedExactly`). Where they are not, a peer may have to restart
  the session, and agreement is reached all the same if requests can be answered.
- A message without heads tells that the other side lost its data
  (`src/automerge/rust/automerge/src/sync.rs:418-424`). A peer that lost everything and
  commits before it speaks does not send one, and is not sent again what it was
  sent before: `SyncLoss.CommitAfterLoss` says exactly when the documents still come
  to agree. Otherwise they never do (`SyncLoss.LossGoesUnnoticed`).
- Choosing an actor for isolated work compares operation counters. An empty
  change fools the comparison (`Histories.EmptyChangeGoesUnseen`); without empty
  changes it is exact (`Histories.CoversMeansSeen`).
- With a false positive in the filter, fewer changes are sent than the other side
  lacks (`SyncSelection.FalsePositiveHides`).
  `SyncSelection.SendsExactlyTheDifference` says exactly when; later rounds make up
  for it (`SyncConvergence.RoundsReachRest`).
- A message is read back unchanged exactly if it is canonical
  (`WireFormats.MessageRoundTrip`): the unknown capability with code 1 comes back
  as a known one (`WireFormats.UnknownCodeIsNotKept`), and surplus filter bits are
  dropped.
- The search in a sorted column looks two slabs ahead, not one, before it
  decides whether to search by slab
  (`src/automerge/rust/hexane/src/columndata.rs:345-357`). That only costs time,
  and the model does the same.
- The cursor parser panics on exactly the texts that are empty or start with a
  character of more than one byte (`WireFormats.CursorTextPanics`,
  `WireFormats.TextsThatPanic`), where it slices off the first byte
  (`src/automerge/rust/automerge/src/cursor.rs:102`).

## Model

| member | source | states |
|---|---|---|
| `SyncRuns.AgreementAtRest` | src/automerge/rust/automerge/src/sync.rs:241-278 | in every run of two peers over in-order channels, with any interleaving of local changes, sends, deliveries and broken connections, from documents each of which has applied what the queue of the other misses: if both channels are empty and neither peer has a message to send, both documents hold the same changes, all of them applied, and have equal heads |
| `SyncRuns.SharedHeadsAreShared` | src/automerge/rust/automerge/src/sync.rs:181-223 | from documents each of which has applied what the other queues: at every point of a run each hash in `shared_heads` is applied on both sides and each hash in a `need` list is applied at the peer that is asked, so neither the reset message nor the early return for a missing change is ever reached |
| `SyncRuns.SuppressionIsSafe` | src/automerge/rust/automerge/src/sync.rs:213-268 | at every point of a run, from any documents, a hash in `sent_hashes` is in a message still on its way, or applied or queued at the other side |
| `SyncRuns.FiltersAreUsable` | src/automerge/rust/automerge/src/sync/bloom.rs:69-90 | in every run, from any documents, each filter a peer looks into has bits to probe, so that probing never divides by zero |
| `SyncRuns.RunKeepsInv` | src/automerge/rust/automerge/src/sync.rs:164-440 | an invariant that holds in every state of every run, from any documents; among others, what a peer noted as sent last the other has, will hear last, or is outdated, and with empty channels never both `in_flight` flags are set |
| `SyncRuns.StepKeepsInv` | src/automerge/rust/automerge/src/sync.rs:164-440 | every local change, send, delivery and reconnect by either peer keeps that invariant |
| `SyncRuns.RunKeepsAnswered` | src/automerge/rust/automerge/src/sync.rs:164-440 | if each side has applied what the queue of the other misses, this stays so in a run, and what is asked for is always applied at the peer that is asked |
| `SyncRuns.RunKeepsTrusted` | src/automerge/rust/automerge/src/sync.rs:164-440 | if each side has applied what the other queues, this stays so in a run, and sync points are always applied on both sides |
| `SyncRuns.RunKeepsSensible` | src/automerge/rust/automerge/src/sync.rs:205-223 | in every run, from any documents, what is asked for is applied at the peer that is asked, or is a dependency of a change the asking peer has |
| `SyncRuns.GenerateFits` | src/automerge/rust/automerge/src/sync.rs:165-279 | a generated message only names heads, needs, sync points and changes its sender can stand for, and every hash newly marked as sent is in the message |
| `SyncRuns.QuietMeansAgreement` | src/automerge/rust/automerge/src/sync.rs:241-260 | a peer that is content with the other's heads, against one that announced its own, has the same document, if what each queue misses is applied at the other side |
| `SyncLimits.AgreementExactly` | src/automerge/rust/automerge/src/sync.rs:205-260 | from any two documents: peers that come to rest agree in all runs if and only if what the queue of either document misses is applied in the other |
| `SyncLimits.SharedExactly` | src/automerge/rust/automerge/src/sync.rs:181-223 | from any two documents: shared heads are shared, requests are met and no session is restarted in all runs if and only if what waits in either queue is applied in the other document |
| `SyncLimits.SilentWithDifferentHeads` | src/automerge/rust/automerge/src/sync.rs:223-223 | a failing input for agreement: one document queues a change whose dependency nobody has; a run of two steps ends at rest with different heads |
| `SyncLimits.QueuedIsTakenForShared` | src/automerge/rust/automerge/src/sync.rs:710-734 | a failing input for shared heads: one document queues a change whose dependency only the other has; a run of six steps ends with a shared head the other side does not have |
| `SyncLimits.RoundsEndApart` | R/sync.R:113-142 | rounds end without agreement whenever a queue waits for something neither document has |
| `SyncConvergence.PotentialDrops` | src/automerge/rust/automerge/src/sync.rs:165-440 | as long as the peers are not at rest, a round of exchanged messages lowers a measure, whatever the documents are, whatever waits in their queues and whatever false positives the Bloom filters have |
| `SyncConvergence.PhaseDrops` | src/automerge/rust/automerge/src/sync.rs:165-440 | a round in which no change goes from hand to hand brings the next change of hands, or rest, at least one of five phases nearer |
| `SyncConvergence.UsefulChanges` | src/automerge/rust/automerge/src/sync.rs:205-260 | a peer that is asked for what it has applied, for all it has, or by a document that has applied nothing, sends something the other side lacks |
| `SyncConvergence.AskedInVain` | src/automerge/rust/automerge/src/sync.rs:223-223 | a peer that is asked for something it has not applied falls silent |
| `SyncConvergence.ResetsLacks` | src/automerge/rust/automerge/src/sync.rs:181-202 | a peer that must restart lacks something the other side has applied |
| `SyncConvergence.RoundConserves` | src/automerge/rust/automerge/src/sync.rs:375-440 | a round loses no change and invents none |
| `SyncConvergence.RoundKeepsSettled` | src/automerge/rust/automerge/src/sync.rs:165-440 | a round keeps the invariants of the runs and leaves nothing on its way |
| `SyncConvergence.RoundsReachRest` | src/automerge/rust/automerge/src/sync.rs:165-440 | from any state of a run with nothing on its way, rounds reach a state in which neither peer has anything to say and no change is lost, after no more rounds than the measure; if requests could be answered at the start, both documents then hold all changes of both |
| `SyncConvergence.RoundIsRun` | src/automerge/rust/automerge/src/sync.rs:165-440 | a run with nothing on its way can be extended, by at most four steps of the protocol, to one that ends with the next round |
| `SyncConvergence.EveryRunCanAgree` | src/automerge/rust/automerge/src/sync.rs:165-440 | every run, whatever is on its way, can be extended by deliveries and rounds alone to one that ends at rest without loss; if at its start each side had applied what the queue of the other missed, both documents then hold all changes of both, all of them applied |
| `SyncConvergence.NothingToSend` | src/automerge/rust/automerge/src/sync.rs:311-372 | against a summary of its own document a peer has nothing to send |
| `SyncLoss.LostPeerIsSentAll` | src/automerge/rust/automerge/src/sync.rs:418-424 | for any document with something applied, any prior state and any announced capabilities: after the first message of a peer that starts over empty, the next message carries every applied change |
| `SyncLoss.HelloIsFirst` | src/automerge/rust/automerge/src/sync.rs:165-279 | the first message of a fresh peer with an empty document: no heads, no needs, an empty summary, no changes, both capabilities, and the older version |
| `SyncLoss.RunSurvivesLoss` | src/automerge/rust/automerge/src/sync.rs:164-440 | at any point of any run one side loses document, state and what is on its way: rounds then come to rest without losing more, and the documents agree if the queue of the other side waits for nothing |
| `SyncLoss.LossIsMadeGood` | src/automerge/rust/automerge/src/sync.rs:375-440 | a peer that starts over with some applied changes, next to one that noted as sent only what is there again or in its next message: rounds come to rest without loss, and in agreement if what the queue of the other side waits for is there |
| `SyncLoss.CommitAfterLoss` | src/automerge/rust/automerge/src/sync.rs:375-440 | at any point of any run one side loses everything and commits before it speaks: rounds can bring the documents to agreement if and only if it committed nothing, or the other side noted as sent only what is there again or in its next message |
| `SyncLoss.LossGoesUnnoticed` | src/automerge/rust/automerge/src/sync.rs:418-424 | the failing half: otherwise the documents never agree, and a change noted as sent is never sent again, however many rounds follow |
| `SyncLoss.RunKeepsHonest` | src/automerge/rust/automerge/src/sync.rs:165-440 | at every point of a run, what a peer notes as shared, as announced or as sent it has applied itself |
| `SyncVersions.VersionAsAnnounced` | src/automerge/rust/automerge/src/sync.rs:239-249 | a message is of the newer version only if the receiver announced it; if it did, every message is, other than one that asks for a restart |
| `SyncVersions.VersionsAreAgreed` | src/automerge/rust/automerge/src/sync.rs:205-249 | at every point of a run, a message of the newer version is on its way only if its receiver had announced that version in a message its sender took in |
| `SyncVersions.AnnouncesBoth` | src/automerge/rust/automerge/src/sync.rs:181-202 | the first message and those that ask for a restart name both capabilities, and no other names any; whoever takes it in holds them afterwards, and other messages leave the held ones alone |
| `SyncVersions.CapabilitiesArrive` | src/automerge/rust/automerge/src/sync.rs:394-397 | at every point of a run: once a peer has spoken, the other side holds both of its capabilities or has a message on its way that names them; with nothing on its way, it holds them |
| `SyncEffects.NextSummary` | src/automerge/rust/automerge/src/sync.rs:375-440 | after a message, the next summary goes from a sync point that has the heads of the message that are there, and, if some are not, the old shared heads if no changes came, and otherwise those of the heads now that are new or were shared; its filter is that of everything after the sync point |
| `SyncEffects.TrimmedExactly` | src/automerge/rust/automerge/src/sync.rs:400-424 | of what was noted as sent, exactly what lies below the heads of a message that are there is crossed off, and everything if the message has no heads |
| `SyncEffects.AsksForMissing` | src/automerge/rust/automerge/src/sync.rs:168-179 | a message, other than one that asks for a restart, asks for exactly the heads of the other side that are not known and the unknown dependencies of queued changes; it has no summary exactly if it asks for more than those heads |
| `SyncEffects.EchoIsSilent` | src/automerge/rust/automerge/src/sync.rs:251-260 | a peer that has spoken and hears its own heads, without needs or changes, has nothing to say |
| `SyncEffects.ReconnectKeepsSyncPoint` | src/automerge/rust/automerge/src/sync/state.rs:97-120 | over a new connection a peer whose queue waits for nothing starts with a summary from the heads that were shared |
| `SyncEffects.SentOnce` | src/automerge/rust/automerge/src/sync.rs:213-268 | in a run an applied change is sent twice only if in between the connection broke, or a message came without heads or with heads above the change, or if the other side was last heard to have nothing |
| `SyncSelection.PickedIsLeast` | src/automerge/rust/automerge/src/sync.rs:327-361 | what is picked by filter is the least set that has the changes all filters deny and is closed under dependents |
| `SyncSelection.WithheldIsClosed` | src/automerge/rust/automerge/src/sync.rs:327-361 | the withheld changes in range are closed under dependencies, up to the last sync |
| `SyncSelection.PickedWereLacking` | src/automerge/rust/automerge/src/sync.rs:327-361 | nothing that is picked was held by the peer when it built its summary |
| `SyncSelection.EachSummaryCounts` | src/automerge/rust/automerge/src/sync.rs:327-361 | of several summaries each protects what its builder held: nothing of that is picked |
| `SyncSelection.SendsExactlyTheDifference` | src/automerge/rust/automerge/src/sync.rs:311-372 | the changes chosen are exactly ours minus theirs if and only if the filter has no false positive among the changes whose dependencies the peer has but which it lacks itself |
| `SyncSelection.FalsePositiveHides` | src/automerge/rust/automerge/src/sync.rs:311-372 | a failing input: with two changes whose hashes probe the same bits, nothing is sent although the peer lacks one of them |
| `SyncDocs.GenerateSyncMessage` | src/automerge/rust/automerge/src/sync.rs:165-279 | on the document and the state object, computes the message and the new state that the run-level results are about; which version it has, and what it says about capabilities, is `SyncVersions.VersionAsAnnounced` and `SyncVersions.AnnouncesBoth` |
| `SyncDocs.ReceiveSyncMessage` | src/automerge/rust/automerge/src/sync.rs:375-440 | takes in the changes and updates the state as the run-level results say, of which `SyncEffects.TrimmedExactly`, `SyncEffects.NextSummary` and `SyncLoss.LostPeerIsSentAll` spell out what is sent afterwards; it panics exactly if the batch it makes does not continue what is applied, so not if every change builds on its actor's previous one; otherwise it fails exactly when the changes then known would hold two with the same actor and number, or one with number 0, leaving the state with just the first fields set |
| `SyncDocs.GetHashesToSend` | src/automerge/rust/automerge/src/sync.rs:311-372 | the stack loop over dependents arrives at the requested changes together with everything in range that builds on a denied change |
| `SyncDocs.Spread` | src/automerge/rust/automerge/src/sync.rs:341-358 | following dependents with a stack ends with a set in which every member's dependents in range are members, and which has only what builds on a denied change |
| `SyncDocs.SpreadEnds` | src/automerge/rust/automerge/src/sync.rs:341-358 | a set that is closed in that way is what the protocol picks |
| `SyncDocs.SlicesAreTheRange` | src/automerge/rust/automerge/src/change_graph.rs:409-436 | the clock slices give the range of the protocol, every change that is not an ancestor of the sync point, for all sync points if and only if each actor's changes form a chain |
| `SyncDocs.DocumentSlices` | src/automerge/rust/automerge/src/change_graph.rs:429-436 | for a document, the slices are the range for all sync points if and only if each of its changes builds on its actor's previous one |
| `SyncDocs.MakeBloomFilter` | src/automerge/rust/automerge/src/sync.rs:302-309 | summarises exactly the applied changes that are not ancestors of the last sync |
| `SyncDocs.AdvanceHeads` | src/automerge/rust/automerge/src/sync.rs:710-734 | the heads that are new, and the old shared heads that still are heads |
| `SyncDocs.SyncRound` | R/sync.R:127-139 | one pass of the loop is one round, ends it exactly at rest, and fails only if the documents hold two changes with the same actor and number |
| `SyncDocs.AmSync` | R/sync.R:113-142 | the sync loop always ends, with neither side having more to say and no change lost, after at most six times the number of missing changes plus six rounds, or five times that plus five if each document has applied what the other queues; if each has applied what the queue of the other misses, the loop succeeds exactly when no two changes of the two documents share actor and number, and then both documents hold the union of both, all of it applied, with equal heads |
| `Bloom.NoFalseNegatives` | src/automerge/rust/automerge/src/sync/bloom.rs:111-142 | a hash that went into the filter is always reported as contained |
| `Bloom.ContainedExactly` | src/automerge/rust/automerge/src/sync/bloom.rs:111-142 | a hash is reported as contained exactly if each of its seven probes meets one of a hash that went in |
| `Bloom.WholeBytes` | src/automerge/rust/automerge/src/sync/bloom.rs:126-142 | a filter has ten bits an entry, rounded up to whole bytes |
| `Bloom.GetProbes` | src/automerge/rust/automerge/src/sync/bloom.rs:69-90 | the probe loop gives the triple-hashing positions in closed form |
| `Bloom.FromHashes` | src/automerge/rust/automerge/src/sync/bloom.rs:126-142 | setting bits probe by probe gives the filter in which a bit is set exactly if some hash probes it, whatever the order |
| `ChangeGraphs.CalculateClock` | src/automerge/rust/automerge/src/change_graph.rs:649-658 | for any set of nodes and any cache of correct clocks, gives per actor the largest number among all ancestors |
| `ChangeGraphs.CalculateClockInner` | src/automerge/rust/automerge/src/change_graph.rs:660-686 | popping the largest node only meets smaller nodes afterwards, so the loop ends, no node is met twice and no more nodes are visited than there are, as the two assertions demand; clock and remaining nodes always account for the whole ancestry; with a limit it goes on until nothing is left, or up to the first node without a cached clock when more nodes than that have been visited |
| `ChangeGraphs.ExtendCache` | src/automerge/rust/automerge/src/change_graph.rs:563-577 | caching the clock of a node, with intermediate clocks on long stretches, terminates, stores only correct clocks and drops none |
| `ChangeGraphs.MergeClocks` | src/automerge/rust/automerge/src/clock.rs:50-57 | merging the clocks of two sets of changes gives the clock of their union |
| `ChangeGraphs.IncludeNode` | src/automerge/rust/automerge/src/clock.rs:32-48 | including a change gives the clock of the set with that change |
| `ChangeGraphs.ClockIsUnique` | src/automerge/rust/automerge/src/clock.rs:5-62 | a set of changes has one clock only |
| `ChangeGraphs.AddParents` | src/automerge/rust/automerge/src/change_graph.rs:547-598 | the edges threaded through the edge list spell the dependencies of the new node in order and leave those of all other nodes as they were |
| `ChangeGraphs.AddParent` | src/automerge/rust/automerge/src/change_graph.rs:579-598 | appends one edge at the end of the child's chain and leaves all other chains alone |
| `ChangeGraphs.NewHeads` | src/automerge/rust/automerge/src/change_graph.rs:460-465 | dropping the dependencies and adding the new change gives exactly the changes nothing depends on |
| `ChangeGraphs.GetBuildIndexes` | src/automerge/rust/automerge/src/change_graph.rs:409-427 | the slices of the per-actor lists, sorted, are exactly the nodes the clock does not cover, in order and without repetition |
| `ChangeGraphs.FastComplementIsExact` | src/automerge/rust/automerge/src/change_graph.rs:409-436 | leaving out the clock slices leaves out exactly the ancestors, for all heads, if and only if each actor's changes descend from one another |
| `ChangeGraphs.UnlinkedBreaksComplement` | src/automerge/rust/automerge/src/change_graph.rs:409-436 | for a change that does not descend from its actor's previous one there are heads for which the fast complement is wrong |
| `ChangeGraphs.UnlinkedHistory` | src/automerge/rust/automerge/src/change_graph.rs:409-436 | a failing input: a valid graph with two unrelated changes of one actor, where the second one as a head hides the first |
| `ChangeGraphs.CoveredIsClosedSet` | src/automerge/rust/automerge/src/change_graph.rs:409-436 | with chains, what the clock of a closed set covers is the set itself |
| `ChangeGraphs.ChangeGraph.GetHashes` | src/automerge/rust/automerge/src/change_graph.rs:429-436 | the hashes in index order that the clock of the heads does not cover; with chains, all but the ancestors of the heads |
| `ChangeGraphs.ChangeGraph.RemoveAncestors` | src/automerge/rust/automerge/src/change_graph.rs:688-714 | the depth-first search takes out exactly the ancestors of those heads that are in the graph |
| `ChangeGraphs.SelectIsWithout` | src/automerge/rust/automerge/src/change_graph.rs:409-436 | reading hashes off the sorted nodes gives the hash list with the covered ones left out, in the same order |
| `ChangeGraphs.ChangeGraph.AddChange` | src/automerge/rust/automerge/src/change_graph.rs:547-561 | skips a known change, fails exactly when a dependency is missing and then changes nothing, and otherwise extends nodes, actor index, edges, heads and cache so that all still fit together; every sixteenth node keeps its clock cached |
| `ChangeGraphs.SixteenthIsCached` | src/automerge/rust/automerge/src/change_graph.rs:540-542 | what is kept of the cache means that each node whose number leaves 15 when divided by 16 has its clock there |
| `ChangeGraphs.ChangeGraph.UpdateHeads` | src/automerge/rust/automerge/src/change_graph.rs:460-465 | the dependencies stop being heads and the change becomes one |
| `ChangeGraphs.ChangeGraph.CacheClock` | src/automerge/rust/automerge/src/change_graph.rs:563-577 | stores the clock of the node's ancestors and keeps the cache correct |
| `ChangeGraphs.ChangeGraph.SeqClockForHeads` | src/automerge/rust/automerge/src/change_graph.rs:640-643 | the clock of all ancestors of the heads that are in the graph |
| `ChangeGraphs.ChangeGraph.ClockForHeads` | src/automerge/rust/automerge/src/change_graph.rs:626-638 | per actor, the last operation of its last change among the ancestors of the heads |
| `ChangeGraphs.ChangeGraph.MaxOpForActor` | src/automerge/rust/automerge/src/change_graph.rs:196-202 | the last operation of the actor's change with the highest number; zero exactly stands for an actor without changes or an index past the table |
| `ChangeGraphs.LastByIndex` | src/automerge/rust/automerge/src/change_graph.rs:196-202 | the last entry of an actor's index is its change with the highest number |
| `ChangeGraphs.ChangeGraph.HeadsToNodes` | src/automerge/rust/automerge/src/change_graph.rs:618-624 | the nodes of those hashes that are in the graph |
| `ChangeGraphs.ChangeGraph.InsertActor` | src/automerge/rust/automerge/src/change_graph.rs:151-163 | renumbers nodes and cached clocks so that the graph stays valid; no cached clock is lost |
| `ChangeGraphs.ChangeGraph.RemoveActor` | src/automerge/rust/automerge/src/change_graph.rs:165-178 | the same for dropping an actor without changes |
| `ChangeGraphs.InsertActorCache` | src/automerge/rust/automerge/src/change_graph.rs:151-163 | shifted cached clocks equal the clocks computed afresh on the renumbered graph |
| `ChangeGraphs.RemoveActorCache` | src/automerge/rust/automerge/src/change_graph.rs:165-178 | the same after an actor was dropped |
| `ChangeGraphs.InsertThenRemove` | src/automerge/rust/automerge/src/change_graph.rs:151-178 | dropping an actor that was just inserted gives the same graph back |
| `Actors.InsertKeepsTable` | src/automerge/rust/automerge/src/automerge.rs:1053-1071 | inserting at the search position keeps the table sorted and every actor under its shifted index |
| `Actors.RemoveKeepsTable` | src/automerge/rust/automerge/src/automerge.rs:286-290 | the same for removing an entry |
| `Actors.BinarySearch` | src/automerge/rust/automerge/src/automerge.rs:1059-1071 | finds the actor, or the place with the ids before it lower and those from it on higher, byte by byte |
| `Actors.LessIsLexicographic` | src/automerge/rust/automerge/src/types.rs:41-45 | one actor is lower than another exactly if it is a proper prefix of it, or has the lower byte where they first differ |
| `Actors.SortedByBytes` | src/automerge/rust/automerge/src/automerge.rs:1059-1071 | a table is sorted exactly if each actor before another is lower byte by byte, and likewise for the place that splits it |
| `Actors.OpIdOrderIsExIdOrder` | src/automerge/rust/automerge/src/exid.rs:184-194 | internal operation ids compare as the external ids that name the actor: by counter, then by the bytes of the actor |
| `Actors.OpIdSurvivesRenumbering` | src/automerge/rust/automerge/src/types.rs:425-440 | after an insertion an operation id stands for the same external id; removing the inserted index is the identity on ids and table |
| `Actors.OpIdSurvivesRemoval` | src/automerge/rust/automerge/src/types.rs:434-440 | an id is lost exactly if its actor was removed, and otherwise stands for the same external id |
| `Actors.ExIdsAreOrdered` | src/automerge/rust/automerge/src/exid.rs:184-200 | external ids are strictly and totally ordered |
| `Actors.ConcurrencyLevelsDiffer` | src/automerge/rust/automerge/src/types.rs:78-85 | different concurrency levels give different actors, and none the actor itself |
| `WireSamples.ConcurrencyBytes` | src/automerge/rust/automerge/src/types.rs:78-85 | the bytes of an actor for concurrent work: four that tell it, the level, and the actor, for a level of one byte and one of two |
| `Actors.Leb128PrefixFree` | src/automerge/rust/automerge/src/types.rs:78-85 | no number's encoding is the start of another's (section 7.6 of DWARF Version 5) |
| `Documents.Automerge.ApplyChanges` | src/automerge/rust/automerge/src/op_set2/change/batch.rs:985-1023 | takes in changes in any order: afterwards everything known that has its dependencies is applied and the rest is queued; it fails exactly when two known changes would share actor and number or one has number 0, at the first such change; it panics exactly when some change of the batch meets a graph without the number before it, which does not happen if every change builds on its actor's previous one; when it fails, applied is what had its dependencies when it came, up to that change |
| `DocumentParts.InOrderIsAccepted` | src/automerge/rust/automerge/src/op_set2/change/batch.rs:985-1005 | changes that each come after what they depend on, and do not wait in the queue, are all taken in at once |
| `Documents.Automerge.GatherBatch` | src/automerge/rust/automerge/src/op_set2/change/batch.rs:990-1013 | the batch holds new changes, each after its dependencies: all that have become ready, unless a number is 0 or taken; then it stops at the first such change, having what had its dependencies when it came |
| `Documents.Automerge.ApplyBatch` | src/automerge/rust/automerge/src/op_set2/change/batch.rs:800-819 | appends the batch to the history and leaves no actor without changes, exactly if each of its changes continues its actor's list |
| `Documents.Automerge.SiftOne` | src/automerge/rust/automerge/src/op_set2/change/batch.rs:985-1023 | an incoming change joins the batch if its dependencies are there, and the queue otherwise; a known one changes nothing; one is refused exactly if its number is 0 or taken in graph, batch or queue |
| `Documents.Automerge.DuplicateSeq` | src/automerge/rust/automerge/src/op_set2/change/batch.rs:780-798 | tells whether the number is 0 or graph, batch or queue holds another change with it and the actor |
| `Documents.Automerge.HasActorSeq` | src/automerge/rust/automerge/src/automerge.rs:842-855 | comparing with the length of the actor's index tells whether the number is 0 or the graph holds another change with it and the actor, whatever the changes build on |
| `Documents.Automerge.DrainQueue` | src/automerge/rust/automerge/src/op_set2/change/batch.rs:1039-1055 | when it stops nothing in the queue is ready |
| `Documents.Automerge.PopNextCausallyReady` | src/automerge/rust/automerge/src/op_set2/change/batch.rs:1046-1055 | takes the first ready change out of the queue, or none is ready |
| `Documents.Automerge.ImportOps` | src/automerge/rust/automerge/src/op_set2/change/batch.rs:806-812 | applies a batch in its order; every change meets a graph that has its dependencies; it gets through exactly if each change is its actor's first or follows the number before it, in the graph or earlier in the batch |
| `Documents.Automerge.InsertNewActors` | src/automerge/rust/automerge/src/op_set2/change/batch.rs:800-804 | adds table entries for exactly the actors with a first change in the batch, without changing what any id means |
| `DocumentParts.BatchApplied` | src/automerge/rust/automerge/src/op_set2/change/batch.rs:985-1023 | after a drained queue the applied changes are the largest dependency-closed part of what is known |
| `DocumentParts.FailsOnTwin` | src/automerge/rust/automerge/src/op_set2/change/batch.rs:985-1023 | stopping at the first change whose number is 0 or taken is failing exactly when the whole holds such a change |
| `Histories.StuckIsCore` | src/automerge/rust/automerge/src/automerge.rs:201-206 | once nothing that waits is ready, all that can be applied is |
| `Histories.ChainsFromNumbering` | src/automerge/rust/automerge/src/automerge.rs:1037-1051 | if every change but an actor's first builds on that actor's previous one, numbers are unique exactly when each actor's changes form a chain |
| `Histories.ContinuesIndex` | src/automerge/rust/automerge/src/change_graph.rs:531-532 | what the assertion checks, that the index of the actor ends just before the number, is the same as that the change with the number before is applied |
| `Histories.EveryOrderContinues` | src/automerge/rust/automerge/src/op_set2/change/batch.rs:985-1023 | new changes are accepted in every order that respects dependencies if and only if, for each, the number before it is applied already or belongs to an ancestor |
| `Histories.UnlinkedIsAccepted` | src/automerge/rust/automerge/src/change_graph.rs:516-545 | an input: the second change of an actor without dependencies is accepted after the first one, and refused before it |
| `DocumentParts.BatchIsOrder` | src/automerge/rust/automerge/src/op_set2/change/batch.rs:985-1023 | the batch is one of the orders of what has become ready, so applying changes never panics when the number before each is applied already or belongs to an ancestor |
| `Histories.ChainsAreNumbered` | src/automerge/rust/automerge/src/change_graph.rs:516-545 | in the graph of a document each actor's changes form a chain if and only if every change but an actor's first builds on that actor's previous one |
| `DocumentParts.NumberedContinues` | src/automerge/rust/automerge/src/change_graph.rs:516-545 | changes that build on their actor's previous ones are never refused |
| `Documents.Automerge.UpdateHistory` | src/automerge/rust/automerge/src/automerge.rs:1037-1051 | appends a ready change to the history and keeps graph, heads, table and maximal operation in step; it gets through exactly if the change is its actor's first or the number before it is applied; the highest operation is that of the change or the one before, whichever is higher |
| `DocumentParts.HighestIsReached` | src/automerge/rust/automerge/src/automerge.rs:1037-1051 | the number kept for the next operation, from a new document on through batches, merges and transactions, is the highest counter of the applied changes, and 0 if there is none |
| `Documents.Automerge.UpdateDeps` | src/automerge/rust/automerge/src/automerge.rs:1073-1079 | the change takes the place of its dependencies among the heads |
| `Documents.Automerge.AppliedIsClosed` | src/automerge/rust/automerge/src/automerge.rs:1073-1079 | the applied changes are dependency-closed and the kept heads are exactly those nothing depends on |
| `Documents.Automerge.GetMissingDeps` | src/automerge/rust/automerge/src/automerge.rs:1883-1906 | the given heads and the dependencies of queued changes that are neither applied nor queued |
| `Documents.Automerge.GetChanges` | src/automerge/rust/automerge/src/automerge.rs:1185-1187 | every applied change that the clock of the given heads does not cover, once and in the order of application; those are the changes that are not ancestors of the heads, if every change builds on its actor's previous one |
| `Documents.Automerge.GetChangesAdded` | src/automerge/rust/automerge/src/automerge.rs:1200-1220 | exactly the changes the other document applied and this one has not, each once |
| `DocumentParts.SearchAdded` | src/automerge/rust/automerge/src/automerge.rs:1200-1220 | the search from the other's heads that stops at own changes finds each missing change once |
| `Documents.Automerge.Merge` | src/automerge/rust/automerge/src/automerge.rs:881-899 | afterwards the document knows its own changes and the other's applied ones and has applied all it can; it fails exactly when a number is used twice and panics exactly as applying changes does, so not for documents whose changes build on their predecessors |
| `Documents.Automerge.PutActor` | src/automerge/rust/automerge/src/automerge.rs:1059-1071 | an actor that is there keeps its index; a new one goes to its place in the table, lower ids before it and higher ones behind it byte by byte, and nothing else changes its meaning |
| `Documents.Automerge.InsertActor` | src/automerge/rust/automerge/src/automerge.rs:1053-1057 | inserts into table and graph alike; the current actor stays who it was |
| `Documents.Automerge.RemoveActor` | src/automerge/rust/automerge/src/automerge.rs:286-290 | removes an entry without changes from table and graph alike; the current actor stays who it was |
| `Documents.Automerge.RemoveUnusedActors` | src/automerge/rust/automerge/src/automerge.rs:304-313 | afterwards every table entry has changes; the history and the current actor are the same |
| `Documents.Automerge.GetOrCreateActorIndex` | src/automerge/rust/automerge/src/automerge.rs:315-324 | the index under which the table holds the current actor, added only if it was missing |
| `Documents.Automerge.IsolateActor` | src/automerge/rust/automerge/src/automerge.rs:1010-1031 | ends, and picks the first among the actor and its concurrency levels whose changes the heads have all seen, given that each change holds an operation and builds on its actor's previous one; the clock, on the table as it is afterwards, is U32_MAX for that actor and for every other its last operation among the ancestors of the heads |
| `Documents.Automerge.FindFree` | src/automerge/rust/automerge/src/automerge.rs:1013-1021 | the search over levels ends because levels give distinct actors and only finitely many have changes; the clock is that of the ancestors of the heads on the table as it is afterwards |
| `Documents.Automerge.TryLevel` | src/automerge/rust/automerge/src/automerge.rs:1010-1021 | comparing operation counters tells whether the heads have seen all changes of the level's actor, given the same; a level that is refused belongs to an actor with changes in any case |
| `Documents.Automerge.GetIsolatedActorIndex` | src/automerge/rust/automerge/src/automerge.rs:1000-1008 | the index of the actor for a level, added if need be |
| `Documents.Automerge.GetTransactionArgs` | src/automerge/rust/automerge/src/automerge.rs:351-391 | a transaction starts from dependencies that have the chosen actor's last change among or below them, an isolated one if each change holds an operation and builds on its actor's previous one; it has a scope exactly if heads are given, which is unbounded for the chosen actor and ends for every other with its last operation among the ancestors of the heads |
| `Documents.Automerge.GetCurrentArgs` | src/automerge/rust/automerge/src/automerge.rs:371-389 | on the current state the dependencies are the heads and the actor's last change, if it has one, each once; they reach every applied change, and there is no scope |
| `Documents.Automerge.WithLast` | src/automerge/rust/automerge/src/automerge.rs:371-379 | adds the change of the actor with the number before the next one, if there is one, to the heads |
| `DocumentParts.ScopeShows` | src/automerge/rust/automerge/src/automerge.rs:1010-1031 | if each change holds an operation and builds on its actor's previous one: a change of another actor is covered by the scope if and only if it is an ancestor of the heads |
| `DocumentParts.OpClockIsLast` | src/automerge/rust/automerge/src/clock.rs:105-107 | the clock of a set of changes has, for each actor in the table, the last operation of its change there with the highest number, and 0 if there is none |
| `Documents.Automerge.GetHash` | src/automerge/rust/automerge/src/automerge.rs:1033-1035 | the change of an actor with a given number |
| `Documents.Automerge.Commit` | src/automerge/rust/automerge/src/transaction/inner.rs:93-168 | with operations pending, adds one change with exactly the start's actor and number and the dependencies that are present, later operations than all before, and no twin; without, leaves the history alone and removes an actor added for the transaction |
| `Documents.Automerge.Transact` | src/automerge/rust/automerge/src/automerge.rs:351-391 | a local transaction on the current state adds a change that descends from all others; an isolated one adds a change that descends from all of its actor, in a history in which each change holds an operation and builds on its actor's previous one; so local transactions keep each actor's changes a chain; the operations of the new change follow the highest one applied |
| `DocumentParts.NewChangeFits` | src/automerge/rust/automerge/src/automerge.rs:351-391 | a local change continues its actor's chain with later operations and has no twin |
| `DocumentParts.LevelsDiffer` | src/automerge/rust/automerge/src/automerge.rs:1000-1008 | the actors tried for isolation are pairwise different |
| `Histories.CoversMeansSeen` | src/automerge/rust/automerge/src/automerge.rs:1010-1021 | with an operation in every change, the counter comparison holds exactly if the clock's changes include all of the actor |
| `Histories.EmptyChangeGoesUnseen` | src/automerge/rust/automerge/src/automerge.rs:1010-1021 | without that it can be fooled: a history with an empty change for which the comparison wrongly holds |
| `Histories.OpsGrow` | src/automerge/rust/automerge/src/change_graph.rs:196-202 | with an operation in every change, counters grow along an actor's changes |
| `Replicas.HoldsWhatItHeard` | src/automerge/rust/automerge/src/automerge.rs:881-891 | in any history of commits and merges over any number of replicas, a replica holds exactly the work that has reached it |
| `Replicas.HeardAlikeAgree` | src/automerge/rust/automerge/src/automerge.rs:881-891 | replicas reached by the same work have the same changes and equal heads |
| `Replicas.AnyOrderConverges` | src/automerge/rust/automerge/src/automerge.rs:881-891 | documents merged in any two orders, each reached by all, end with the same change set and equal heads |
| `Dag.HeadsDetermine` | src/automerge/rust/automerge/src/automerge.rs:1179-1183 | closed histories have equal heads exactly if they are equal |
| `Autosave.AutoCommit.Save` | src/automerge/rust/automerge/src/autocommit.rs:435-443 | saves everything known, and leaves the cursor at what was applied |
| `Autosave.AutoCommit.SaveIncremental` | src/automerge/rust/automerge/src/autocommit.rs:491-498 | writes exactly the applied changes not saved before, each once, whatever the changes build on; afterwards every applied change is saved, in pairwise disjoint increments |
| `Autosave.AutoCommit.SavedIsBelowCursor` | src/automerge/rust/automerge/src/autocommit.rs:435-498 | the last full save and the later increments hold exactly the ancestors of the save cursor |
| `Autosave.AutoCommit.ApplyChanges` | src/automerge/rust/automerge/src/automerge.rs:857-873 | changes from elsewhere keep what is said of the saves, whatever they build on, unless the program panics, which it does exactly if the batch it makes does not continue what is applied |
| `Autosave.AutoCommit.Merge` | src/automerge/rust/automerge/src/autocommit.rs:418-428 | so does a merge |
| `Autosave.AutoCommit.Commit` | src/automerge/rust/automerge/src/autocommit.rs:491-498 | so does a local commit, isolated or not |
| `Autosave.ChangesSince` | src/automerge/rust/automerge/src/automerge.rs:954-964 | the changes after the cursor are exactly those not saved, whatever the changes build on |
| `Autosave.SavedIsCovered` | src/automerge/rust/automerge/src/change_graph.rs:409-436 | the clock of what was saved covers that and no more, also where actors' changes do not form chains |
| `Autosave.DownwardStays` | src/automerge/rust/automerge/src/change_graph.rs:516-545 | changes that come later have higher numbers than all of their actor that are saved |
| `Autosave.LoadedFromSaves` | src/automerge/rust/automerge/src/automerge.rs:954-964 | loading the saves gives back the document at the cursor |
| `SequenceTrees.SequenceTreeInternal.InsertAt` | src/automerge/rust/automerge/src/sequence_tree.rs:49-90 | the tree stays a B-tree with true lengths and now reads as the sequence with the element inserted |
| `SequenceTrees.SequenceTreeInternal.Push` | src/automerge/rust/automerge/src/sequence_tree.rs:92-95 | the element comes last |
| `SequenceTrees.SequenceTreeInternal.GetAt` | src/automerge/rust/automerge/src/sequence_tree.rs:98-100 | the element of the sequence, None past the end |
| `SequenceTrees.SequenceTreeInternal.RemoveAt` | src/automerge/rust/automerge/src/sequence_tree.rs:112-132 | gives the element and now reads as the sequence without it; the tree shrinks with its root |
| `SequenceTrees.MinimalSize` | src/automerge/rust/automerge/src/sequence_tree.rs:6-20 | a tree of height h holds at least 2 * 16^h - 1 elements |
| `SequenceTrees.Get` | src/automerge/rust/automerge/src/sequence_tree.rs:421-439 | descending by lengths finds the element at the position |
| `SequenceTrees.FindChildIndex` | src/automerge/rust/automerge/src/sequence_tree.rs:161-171 | the child that holds the position, and the position within it |
| `SequenceTrees.InsertIntoNonFullNode` | src/automerge/rust/automerge/src/sequence_tree.rs:173-196 | inserts below a node that is not full, splitting full children on the way, and keeps the shape |
| `SequenceTrees.SplitChild` | src/automerge/rust/automerge/src/sequence_tree.rs:198-239 | two halves with B - 1 elements take a full child's place; the contents are the same |
| `SequenceTrees.RemoveElement` | src/automerge/rust/automerge/src/sequence_tree.rs:370-411 | removes the element at a position from a node and keeps the shape |
| `SequenceTrees.RemoveElementFromNonLeaf` | src/automerge/rust/automerge/src/sequence_tree.rs:246-268 | predecessor or successor takes the element's place, or the children merge around it |
| `SequenceTrees.RemoveFromInternalChild` | src/automerge/rust/automerge/src/sequence_tree.rs:277-361 | removes within a child that has been given enough elements first |
| `SequenceTrees.FillChild` | src/automerge/rust/automerge/src/sequence_tree.rs:277-357 | borrowing from a sibling or merging with it leaves the contents as they were and the position in a child that can lose an element |
| `SequenceTrees.MoveRight` | src/automerge/rust/automerge/src/sequence_tree.rs:310-333 | rotating an element over keeps the order of all |
| `SequenceTrees.MoveLeft` | src/automerge/rust/automerge/src/sequence_tree.rs:334-356 | rotating an element over keeps the order of all |
| `SequenceTrees.Merge` | src/automerge/rust/automerge/src/sequence_tree.rs:413-419 | two half-full siblings and the element between them make one full node |
| `SequenceTrees.CumulativeIndex` | src/automerge/rust/automerge/src/sequence_tree.rs:270-275 | the length of everything before a child |
| `Weaving.WeaveReplace` | src/automerge/rust/automerge/src/sequence_tree.rs:277-360 | replacing two neighbouring children and the element between them replaces just that stretch of the contents |
| `Weaving.WeaveCut` | src/automerge/rust/automerge/src/sequence_tree.rs:198-239 | cutting a child at an element that moves up leaves the contents the same |
| `Marks.MarkStateMachine.MarkBegin` | src/automerge/rust/automerge/src/marks.rs:258-284 | the open marks stay sorted by id and gain this one, unless one with its id is open; the winning marks follow; the result tells exactly whether they changed |
| `Marks.MarkStateMachine.MarkEnd` | src/automerge/rust/automerge/src/marks.rs:286-311 | an end with id (n + 1, a) leaves the open marks other than the one with id (n, a), sorted; the winning marks follow; the result tells exactly whether they changed |
| `Marks.MarkStateMachine.Process` | src/automerge/rust/automerge/src/marks.rs:250-256 | the same for any operation |
| `Marks.WinningIsHighest` | src/automerge/rust/automerge/src/marks.rs:240-345 | a name has a winner exactly when a mark of it is open, and it is the value of the open mark with the highest id |
| `Marks.SameOpenSameWinning` | src/automerge/rust/automerge/src/marks.rs:164-172 | what wins depends on the set of open marks only |
| `Marks.MarkAbove` | src/automerge/rust/automerge/src/marks.rs:317-329 | None exactly if no later mark has the name |
| `Marks.MarkBelow` | src/automerge/rust/automerge/src/marks.rs:331-345 | the winner among the marks below, None exactly if there is none |
| `Marks.Find` | src/automerge/rust/automerge/src/marks.rs:313-315 | where an id is, or the place between lower and higher ones |
| `Marks.OpenedKeeps` | src/automerge/rust/automerge/src/marks.rs:258-284 | opening keeps the order and adds just the new mark |
| `Marks.ClosedKeeps` | src/automerge/rust/automerge/src/marks.rs:286-311 | closing keeps the order and takes out just that mark |
| `Marks.QueryTracksMachine` | src/automerge/rust/automerge/src/marks.rs:400-419 | the hash map of the query state and the machine keep the same open marks |
| `Marks.RichTextQueryState.Process` | src/automerge/rust/automerge/src/marks.rs:400-419 | an operation the clock does not cover is not seen; an end with id (n + 1, a) takes the mark (n, a) out of the map and no other; a block marker is remembered |
| `Marks.FromQueryState` | src/automerge/rust/automerge/src/marks.rs:164-172 | whatever order the hash map is walked in, the marks that win come out |
| `MarkRanges.CalculateMarks` | src/automerge/rust/automerge/src/automerge.rs:1237-1281 | a range of a name covers a position with a value exactly if, of the marks of that name that were begun before the operation at the position and not ended before it, the one with the highest id has the value, and it is not null; the ranges are in order, disjoint and maximal, also across operations without width |
| `MarkRanges.OpenIsLive` | src/automerge/rust/automerge/src/marks.rs:250-311 | after any stream of operations the open marks are those that were begun, when none with their id was open, and, since, not ended by the operation with the next counter of the same actor |
| `MarkRanges.WinnerIsLive` | src/automerge/rust/automerge/src/marks.rs:240-345 | what wins for a name is the value of such a mark with the highest id |
| `MarkRanges.SpotsAreMarked` | src/automerge/rust/automerge/src/automerge.rs:1237-1281 | a position of the text carries what wins at the operation it belongs to, found by adding up widths |
| `MarkRanges.MarkAccumulator.Add` | src/automerge/rust/automerge/src/marks.rs:86-101 | adding a stretch keeps every name's ranges a faithful run-length view |
| `MarkRanges.FaithfulExtended` | src/automerge/rust/automerge/src/marks.rs:86-101 | appending a range, or merging it with the last one, keeps the view faithful |
| `MarkRanges.NoUnmarkKeeps` | src/automerge/rust/automerge/src/marks.rs:75-84 | dropping null marks keeps exactly the other ranges, in order |
| `MarkRanges.SpotOfOp` | src/automerge/rust/automerge/src/automerge.rs:1237-1281 | the positions of an operation carry the marks that win at it |
| `MarkRanges.StateOfInOrder` | src/automerge/rust/automerge/src/marks.rs:250-256 | after any stream of operations the open marks are sorted by id |
| `BooleanColumns.ColumnData.SpliceValues` | src/automerge/rust/hexane/src/columndata.rs:786-856 | with the deletion inside one slab: the program panics exactly for a deletion from the start of a slab to the end of a run of false after which the remaining bytes fill a slab; the column reads as the plain sequence spliced if and only if it does not panic and the splice does not take everything out of a slab and put nothing in, when it is unchanged; lengths, accumulators and run shape stay exact; if no slab takes more bytes than a bound, none comes to, unless the bound is less than what a slab that is just not full takes with one run more |
| `BooleanColumns.LastValueStays` | src/automerge/rust/hexane/src/cursor.rs:376-387 | a failing input of the kind that condition names: one value, taken out of its slab, and nothing put in |
| `BooleanColumns.FullSlabBursts` | src/automerge/rust/hexane/src/slab/writer.rs:426-436 | a failing input of the other kind, with slabs of 64 bytes: 63 single values and a run of 128 in one slab, from which the first value is taken |
| `BooleanColumns.ComputeMinMax` | src/automerge/rust/hexane/src/cursor.rs:198-205 | the assertions hold exactly if every slab has values |
| `BooleanColumns.SpliceSlabs` | src/automerge/rust/hexane/src/cursor.rs:336-388 | the slabs read as what is before, the new values and what is after; all have values unless the deletion is one of those that panic; none takes more bytes than one that is just not full with one run more, or than the old slab |
| `BooleanColumns.SpliceOne` | src/automerge/rust/hexane/src/columndata.rs:786-856 | the slabs of a column after one was spliced: they read as the column spliced, or are the same if the program panics or nothing is left of that slab |
| `BooleanColumns.SlabForHolds` | src/automerge/rust/hexane/src/columndata.rs:786-856 | the slab that is spliced holds the position before its end, unless it is the last |
| `BooleanColumns.Splice` | src/automerge/rust/hexane/src/cursor.rs:336-388 | decoding the replacing slabs gives what is before, the new values and what is after; no slab comes out exactly if nothing is left; each slab has values exactly if the splice is not one of those that panic |
| `BooleanColumns.SpliceDelete` | src/automerge/rust/hexane/src/cursor.rs:390-436 | skips exactly the given number of values, or all, and tells how many were too many |
| `BooleanColumns.SpliceEncoder` | src/automerge/rust/hexane/src/boolean.rs:165-218 | the encoder holds what is before the position; cursor and pending run stand for what is behind the deletion |
| `BooleanColumns.FinalizeState` | src/automerge/rust/hexane/src/boolean.rs:97-137 | the pending run is joined with an equal next one, so runs stay alternating, and nothing is lost or repeated |
| `BooleanColumns.CopyRest` | src/automerge/rust/hexane/src/boolean.rs:86-95 | copies the rest of the old slab behind what was written; a slab without values comes about exactly if no more than an empty run was written and the rest does not fit behind it |
| `BooleanColumns.TryNext` | src/automerge/rust/hexane/src/boolean.rs:227-250 | takes one run and keeps index and accumulator those of what was passed |
| `BooleanColumns.Next` | src/automerge/rust/hexane/src/cursor.rs:285-290 | skips empty runs, so a run that comes back has values |
| `BooleanColumns.Seek` | src/automerge/rust/hexane/src/cursor.rs:308-320 | the run that holds the position, and the cursor behind it |
| `BooleanColumns.CopyPrefix` | src/automerge/rust/hexane/src/slab/writer.rs:507-526 | a copied stretch reads as the runs it was copied from |
| `BooleanColumns.SlabWriter.Put` | src/automerge/rust/hexane/src/slab/writer.rs:353-377 | appends runs and keeps length, accumulator and bytes exact; a slab that would start with true starts with an empty run |
| `BooleanColumns.SlabWriter.FlushBoolRun` | src/automerge/rust/hexane/src/slab/writer.rs:267-271 | writes one run; the slab under way holds nothing but an empty run exactly if that is what was written; no slab under way stays full |
| `BooleanColumns.SlabWriter.Copy` | src/automerge/rust/hexane/src/slab/writer.rs:507-526 | copies encoded runs behind what was written; exactly if that was an empty run alone and the copy does not fit behind it, a slab without values is ended |
| `BooleanColumns.SlabWriter.CheckMax` | src/automerge/rust/hexane/src/slab/writer.rs:392-401 | ends the slab exactly if it is full, which then has values; the one under way afterwards is not full |
| `BooleanColumns.SlabWriter.CheckCopyOverflow` | src/automerge/rust/hexane/src/slab/writer.rs:426-436 | ends the slab before a copy that does not fit, without values exactly if it holds an empty run alone; what is copied then fits, or starts a slab |
| `BooleanColumns.SlabWriter.CloseSlab` | src/automerge/rust/hexane/src/slab/writer.rs:414-424 | ends a slab, with or without values, with its exact length and accumulator |
| `BooleanColumns.SlabWriter.Finish` | src/automerge/rust/hexane/src/slab/writer.rs:465-505 | gives valid slabs that read as all that was written and all have values if those ended before do; none takes more bytes than the bound of the writer |
| `BooleanColumns.Encoder.AppendItem` | src/automerge/rust/hexane/src/encoder.rs:404-408 | appends one value |
| `BooleanColumns.Encoder.Flush` | src/automerge/rust/hexane/src/encoder.rs:474-477 | writes the pending run |
| `SortedSearch.ColumnDataIter.SeekToValue` | src/automerge/rust/hexane/src/columndata.rs:389-445 | on a column sorted in the range gives exactly the positions that hold the value, or the empty range at the clamped insertion point, and leaves the iterator there |
| `SortedSearch.BinarySearchFor` | src/automerge/rust/hexane/src/columndata.rs:345-387 | a slab to jump to starts below the value and inside the range, and the next one does not start below the value, or holds the end of the range; there is none only if no slab ahead can be jumped to, or the one after the next starts above the value |
| `SortedSearch.JumpKeepsBelow` | src/automerge/rust/hexane/src/columndata.rs:389-445 | jumping to that slab passes over nothing but smaller values, so the binary search and the plain scan give the same answer |
| `SortedSearch.ScanFrom` | src/automerge/rust/hexane/src/columndata.rs:389-445 | the scan over runs alone, without a jump, meets the same specification |
| `SortedSearch.FoundExactly` | src/automerge/rust/hexane/src/columndata.rs:389-445 | an answer separates the positions below the value, at it and above it |
| `SortedSearch.FoundOnce` | src/automerge/rust/hexane/src/columndata.rs:389-445 | only one answer is possible |
| `SortedSearch.ColumnDataIter.AdvanceTo` | src/automerge/rust/hexane/src/columndata.rs:321-334 | stands at the target position or at the end |
| `SortedSearch.SlabFor` | src/automerge/rust/hexane/src/columndata.rs:366-368 | the slab that holds the position, or the last one |
| `RunLengths.DecodeConcat` | src/automerge/rust/hexane/src/boolean.rs:227-250 | runs written one after the other decode to the values one after the other |
| `WireFormats.MessageRoundTrip` | src/automerge/rust/automerge/src/sync.rs:594-708 | parsing an encoded message gives it back with no input left exactly if no unknown capability uses a known code and every Bloom filter has the bits its parameters call for, an empty one being the default; absent and empty capabilities stay apart |
| `WireFormats.UnknownCodeIsNotKept` | src/automerge/rust/automerge/src/sync.rs:672-689 | a failing input: the unknown capability with code 1 is read as a known one |
| `WireFormats.MessageIsRead` | src/automerge/rust/automerge/src/sync.rs:594-708 | what parsing gives back for every message with enough bits in its filters |
| `WireFormats.ParsedFilters` | src/automerge/rust/automerge/src/sync/bloom.rs:49-67 | whatever bytes were parsed, a filter has enough bits for its parameters |
| `WireFormats.Encode` | src/automerge/rust/automerge/src/sync.rs:638-658 | pushing the parts onto a buffer in turn gives the encoding |
| `WireSamples.MessageBytes` | src/automerge/rust/automerge/src/sync.rs:638-658 | the bytes of a message with one of everything: 0x42 or 0x43, heads, needs, the summary with its filter, the chunk, and the codes of the capabilities, in this order |
| `WireSamples.FirstMessageBytes` | src/automerge/rust/automerge/src/sync.rs:134-135 | the bytes of the first message of a fresh peer with an empty document; another type, and no type, are errors |
| `WireSamples.FilterNumbers` | src/automerge/rust/automerge/src/sync/bloom.rs:8-90 | ten bits an entry, rounded up to bytes, and seven probes, with the positions of one hash written out |
| `WireSamples.BytesHoldBits` | src/automerge/rust/automerge/src/sync/bloom.rs:49-67 | the bytes that a filter's parameters call for hold its bits, and no byte is more than that takes |
| `WireFormats.PushMany` | src/automerge/rust/automerge/src/sync.rs:691-700 | pushes the count and then every element |
| `WireFormats.ManyIsRead` | src/automerge/rust/automerge/src/storage/parse.rs:423-445 | a length-prefixed collection is read back element by element |
| `WireFormats.Leb128Exact` | src/automerge/rust/automerge/src/storage/parse/leb128.rs:15-39 | a number below 2^64 is read from exactly the inputs that start with its shortest encoding (section 7.6 of DWARF Version 5) |
| `WireSamples.Numbers` | src/automerge/rust/automerge/src/storage/parse/leb128.rs:15-39 | the bytes of some numbers, among them the example of section 7.6 of DWARF Version 5 |
| `WireFormats.UlebSizeIsLength` | src/automerge/rust/hexane/src/leb128.rs:13-22 | the size computed from the bit length is the length of the encoding |
| `WireFormats.BytesExact` | src/automerge/rust/automerge/src/storage/parse.rs:453-459 | length-prefixed bytes are read from exactly the inputs that start with their encoding |
| `WireFormats.CursorRoundTrip` | src/automerge/rust/automerge/src/cursor.rs:119-176 | a cursor is read from exactly the bytes that start with its encoding or, for version 0, with its actor and counter |
| `WireSamples.CursorBytes` | src/automerge/rust/automerge/src/cursor.rs:119-176 | the bytes of some cursors, one of them in the older version, and bytes that are not a cursor |
| `WireFormats.CursorTextRoundTrip` | src/automerge/rust/automerge/src/cursor.rs:92-117 | every cursor is read back from its text, without a panic |
| `WireFormats.OpTextExactly` | src/automerge/rust/automerge/src/cursor.rs:92-117 | a text is read as a cursor into the operations exactly if it is an optional minus, a number below 2^64 with an optional plus, the sign @ and hexadecimal bytes |
| `WireSamples.OnlyDigits` | src/automerge/rust/automerge/src/cursor.rs:107-108 | a number is read from decimal digits only |
| `WireSamples.OnlyHexDigits` | src/automerge/rust/automerge/src/types.rs:88-96 | bytes are read from an even number of hexadecimal digits only, in lower or upper case |
| `WireSamples.Digits` | src/automerge/rust/automerge/src/types.rs:88-96 | which characters are digits, and for how much they count |
| `WireSamples.Utf8Widths` | src/automerge/rust/automerge/src/cursor.rs:92-102 | how many bytes a character takes in UTF-8 (section 3 of RFC 3629) |
| `WireFormats.CursorTextPanics` | src/automerge/rust/automerge/src/cursor.rs:92-117 | the parser panics if and only if the text is empty or its first character is not below 0x80, and so takes more than one byte in UTF-8 |
| `WireFormats.TextsThatPanic` | src/automerge/rust/automerge/src/cursor.rs:92-117 | failing inputs: the empty text, and one that starts with a letter of two bytes |
| `WireSamples.CursorTexts` | src/automerge/rust/automerge/src/cursor.rs:179-199 | the texts of some cursors: direction, counter in decimals, actor in hexadecimals |
| `WireFormats.ObjectIdRoundTrip` | src/automerge/rust/automerge/src/exid.rs:29-124 | an external object id is read from exactly the bytes that start with its encoding |
| `WireSamples.ObjectIdBytes` | src/automerge/rust/automerge/src/exid.rs:29-124 | the bytes of some object ids, and the error for each place where bytes can end or be wrong |

## Left out

- Bloom.ContainsHash: on a filter with entries and no bits the program panics, where this function gives an answer that means nothing; such a filter can only come from a foreign sender (`SyncRuns.FiltersAreUsable`).
- SyncRuns.AgreementAtRest: runs start from fresh sync states; reconnections later in a run keep whatever is queued. A delivery never fails: runs in which receiving a message ends with the error for a number that is used twice, after part of the message went in, are not runs of the model.
- SyncDocs.AmSync: that the documents agree is stated for queues that can be answered from the start; from others the loop ends as well, but with agreement or without it (`SyncLimits.RoundsEndApart`), and no condition is given.
- SyncDocs.GenerateSyncMessage: messages carry sets of changes, not encoded chunks; a saved document is the set of what is known. What it says, and with it `SyncDocs.AmSync`, is for documents whose changes build on their actor's previous ones; on others the slices differ (`SyncDocs.DocumentSlices`).
- Documents.Automerge.IsolateActor: what it says about the chosen actor is for histories in which each change holds an operation and builds on its actor's previous one; the loop over levels is written as recursion.
- Documents.Automerge.Transact: the operations of a transaction are a number only; the document is left fit for further calls unless its queue holds a change with the actor and number that was taken.
- Documents.Automerge.UpdateHistory: does not model the operation set; the counter of the last operation stands for it.
- Histories.EmptyChangeGoesUnseen: empty changes are outside the chain results, for the reason this lemma shows.
- Replicas.HoldsWhatItHeard: replicas are sets of changes; that the document's merge does what a step does is `Documents.Automerge.Merge`.
- Autosave.AutoCommit.Save: always keeps queued changes, as the default options do; compression and verification are not modelled.
- SequenceTrees.InsertIntoNonFullNode: nodes are values that are rebuilt along the path, so that children are updated in place is not captured; the tree object itself is updated.
- BooleanColumns.SlabWriter.Put: offsets count runs, not bytes, though slabs end where their bytes say; the bound on bytes is any number from 2.
- BooleanColumns.ColumnData.SpliceValues: does not give the accumulator that the program returns; a deletion that goes beyond the slab makes the program panic and is excluded.
- SortedSearch.ColumnDataIter.SeekToValue: for a range whose end lies before its start only the returned range is specified, not the iterator afterwards; the shortcuts of the iterator's `nth` are replaced by advancing run by run.
- WireFormats.ParsedFilters: the size of a filter is computed exactly, where the program goes through floating point, which is exact below 2^53.
- The operation set, patches, object contents and their encodings; a change's operations appear as a count.
- SHA-256, DEFLATE, chunk parsing and checksums; a hash is taken to determine its change.
- Loading Boolean columns from bytes (`load_with`), the columns of other types, the bytes that encode runs, of which only their number is modelled; the span tree over slabs is a sequence.
- Text diffing, Unicode widths and segmentation.
- The C and R glue, the foreign-function layer, serde output, logging and random actor ids.
- Encoding and decoding the persisted sync state; its effect, that only the shared heads survive, is part of a broken connection in the runs.
- Resolving cursors and object ids against a document, and diffing clock ranges.
