# A verified model of libfossil's core

libfossil keeps content-addressed artifacts in delta chains, exchanges them with other repositories, indexes tags
over the checkin graph, compares and merges texts, and reads and writes two text formats. This project models that
core in Dafny 4.11 and proves what it is for. `dafny verify dfyconfig.toml` checks everything.

## Components

* **Sync** (`SyncStore`, `SyncServer`, `SyncClient`, `SyncLoop`). The store, the stateless server and the client's
  session are classes whose methods follow the source card by card. `Sync` runs the round loop of a fault-free
  session. The client decides locally that it is done; `QuietMeansEqual` shows that this implies equal remote stores,
  and `OtherRoundsProgress` that every other round brings them closer, byte budget, request limit and ageing phantoms
  included. The opening position is: no phantom rows, every client artifact that the server lacks is unclustered,
  unsent artifacts are unclustered, both sides judge contents alike, and no artifact makes the manifest parser panic
  when it is stored (`ArtifactPanics`). A session that only pulls never succeeds when the
  client holds artifacts that the server lacks, because the client announces them and the server goes on asking for
  them; the comment in `repo_pull.go` promises otherwise, the code is modelled.
* **Clone** (`CloneServer`, `CloneClient`, `CloneLoop`). The server's table is a different one in every round:
  `Hub` says that writers only add rows beyond all others and fill phantoms, with contents that can be stored. `Clone` shows what arrives, in which
  order and in how many rounds.
* **Store, purge and cache** (`ContentChains`, `ContentStore`, `ContentCache`, `CacheFetches`, `CacheRuns`). `Expanded` is the content
  of an artifact, however it is represented; undelta, purge and storing are shown to leave it alone. `CacheRuns` runs
  any schedule of readers, each split into lookup, every single query of the expansion, and insertion, with writers in
  between.
* **Tags** (`TagIndex`, `TagStore`, `TagRuns`). `Effective` is the recursive definition, `tagxref` the index that the
  pruned priority-queue walk maintains.
* **Diff and delta** (`Lcs`, `EditGraph`, `EditScript`, `MyersDiff`, `Hunks`, `Diff`, `DiffText`; `LineEnds`;
  `DeltaInt`, `DeltaApply`, `DeltaText`, `DeltaFormat`, `DeltaCreate`). Array algorithms in place, against edit distance and
  against the meaning of delta commands. A delta's commands are shown to be the greedy choice at every place.
* **Path, bisect, merge** (`Paths`, `Forest`, `Bisect`; `MergeAlign`, `MergeText`). `Compatible` says which changes of two
  sides a merge can apply together, `Tidy` where the conflicts are just the overlapping changes.
* **Text formats** (`Words`, `FossilText`, `Decimal`, `Reading`, `Sorting`, `TextFormat`; `XferCards`, `XferEncode`,
  `XferMessage`, `XferExact`, `XferFormat`; `DeckCards`, `DeckRoundTrip`, `DeckText`, `DeckExact`, `DeckFormat`;
  `DeltaManifests`). `WellFormed` says which cards and
  manifests can be read back, and the two modules named Exact show that no others can. The
  modules named Format (and `DeltaFormat`) state the formats once more, as the characters that are written and what is refused.

SQL tables are maps and sets held in classes; a query without an order is a loop in any order. Go's 64-bit and 32-bit
arithmetic, and the largest slice that the runtime's size check lets pass, are written out in `Bytes`; a size that passes
but that memory cannot provide ends the process, which no result here speaks of. Texts are bytes, and white space is what
Unicode calls so, in UTF-8, written out in `Words`. Hash functions, zlib, clocks
and the bisect answers are parameters.

## Results that differ from what one might expect

* `SyncLoop.Sync`: a pull without push does not end when the client has artifacts of its own (`Hopeful`).
* `TagStore.Repo.ApplyTag`: a singleton, or a row no newer than an inherited one, can leave the index stale; the
  contract says exactly when (`LeavesStale`).
* `ContentStore.PurgedPhantoms`: a purge leaves the phantom table wrong exactly when a phantom was shunned;
  `ShunnedPhantomIsLeft` is such a repository.
* `DeltaManifests.PermissionIsLost`: a delta manifest does not record a change of permissions alone; `PermsSafe` is the
  exact condition.
* `DeltaText.PanicsExactly`: a delta that announces a length beyond the largest allocation makes `Apply` panic instead
  of returning an error; `HugeLengthPanics` gives the inputs.
* `XferExact.MessageExactly`: not every message can be read back, but exactly those of well-formed cards. An error card
  without text is not one (`XferMessage.EmptyErrorIsLost`), nor one with white space that is not escaped
  (`SpacedErrorIsLost`), nor an unknown command that starts with #.
* `DeckExact.ManifestExactly`: nor can every manifest, but exactly the well-formed ones. White space in a file name other
  than blanks and newlines (`DeckExact.SpacedIsMisread`; a tab or U+3000, `TwoMisreadNames`), a tag type outside ASCII
  (`HighTypeIsMisread`), or a cherry pick without target and baseline is enough to lose one.
* `XferExact.CrashExactly` and `DeckExact.CrashExactly`: a message or a manifest makes its reader panic exactly when the
  reader gets to a payload size that is negative or fails the size check, or to a wiki card without one.
* `ArtifactPanics`: artifacts that make the manifest parser panic cannot be stored as new ones, although they bear their
  names (`BareWikiIsNotStored`), and stop every session that carries them.
* `CacheFetches.UnknownIsMisread`: an artifact that is expanded before it is there can be misread, and then cached.
* `ContentStore.Store.Purge`: a purge that fails reports deltas as expanded although that was rolled back.
* `MergeText.Merge3`: a remote insertion in front of lines that local replaced brings these lines back without a
  conflict (`UndercutLineIsBack`); `Compatible` is the exact condition for both lists to be applied. Equal insertions
  on both sides are applied twice (`TwoInsertions`).
* `Diff.SameLines`: texts that differ only in the kind of line ends, or in a last one, compare as identical.

## Model

| member | source | states |
|---|---|---|
| MyersDiff.Myers | internal/diff/diff.go:64-132 | For all line lists the script turns src into dst, its inserts plus deletes number the edit distance, every array access is in bounds and the search always ends inside the loop, so the panic after it is unreachable |
| MyersDiff.Search | internal/diff/diff.go:86-132 | The rounds of the search find a script with exactly as many edits as the distance of the far corner |
| MyersDiff.Backtrack | internal/diff/diff.go:135-175 | Walking the saved snapshots backwards rebuilds such a script, without ever leaving a snapshot |
| MyersDiff.BackAlongSnake | internal/diff/diff.go:157-162 | Walking equal lines backwards stops exactly where the round entered the diagonal |
| MyersDiff.ReverseInPlace | internal/diff/diff.go:177-180 | The swap loop reverses the operations |
| MyersDiff.CheckPostcondition | internal/diff/diff.go:182-196 | The counts that the final loop checks always agree: neither panic can happen |
| MyersDiff.FarIsReached | internal/diff/diff.go:86-118 | The point recorded for a diagonal is reachable with as many edits as the round says |
| MyersDiff.FarIsFurthest | internal/diff/diff.go:86-118 | No point of the diagonal reachable with that many edits lies further out |
| MyersDiff.FirstArrivalIsCorner | internal/diff/diff.go:120-124 | The first recorded point past both ends is the far corner itself, and the round is its distance |
| MyersDiff.ArrivesInTime | internal/diff/diff.go:75-131 | The round numbered by the distance reaches the corner, within the bound of the loop |
| MyersDiff.MyersIsOptimal | internal/diff/diff.go:64-132 | A script with that many edits is minimal among all scripts, and its size is len(src) + len(dst) less twice the longest common subsequence |
| EditGraph.DistIsLcs | internal/diff/diff.go:64-132 | Edit distance and longest common subsequence determine each other |
| EditScript.NoScriptIsShorter | internal/diff/diff.go:48-60 | Every script that transforms src into dst has at least that many inserts and deletes |
| Lcs.LenBounds | internal/merge/threeway.go:102-135 | No common matching of two prefixes is longer than the reference length |
| Lcs.LenAttained | internal/merge/threeway.go:102-135 | Some common matching is as long |
| Hunks.FindChanges | internal/diff/diff.go:209-221 | The ranges are exactly the maximal runs of changed operations |
| Hunks.MergeAdjacentChanges | internal/diff/diff.go:225-239 | Ranges at most twice the context apart are joined, and no others |
| Hunks.BuildHunks | internal/diff/diff.go:243-298 | For every context size the hunks stand where their start and count numbers say in both files, ascend with an untouched line between them, give dst when laid over src, and show exactly the asked context |
| Hunks.LinePositions | internal/diff/diff.go:251-266 | The line numbers of every operation in both files |
| Hunks.PatchFrom | internal/diff/diff.go:243-298 | Laying the hunks from any one on over the rest of src gives the rest of dst |
| Hunks.HunksApart | internal/diff/diff.go:225-239 | An equal line between two ranges keeps their hunks apart in both files |
| Hunks.ContextIsExact | internal/diff/diff.go:269-296 | A hunk carries exactly the asked number of context lines, unless the file ends |
| Diff.Stat | internal/diff/diff.go:420-438 | Binary exactly when a text has a null byte; otherwise insertions and deletions are what a longest common subsequence of the lines leaves over on either side, none exactly when the lines are the same |
| Diff.Compare | internal/diff/diff.go:386-415 | Binary, or nothing exactly when the lines are the same, or hunks that patch the lines of one text into those of the other |
| DiffText.FormatUnified | internal/diff/diff.go:307-382 | The lines of the output: names, headers, marked lines, and the markers behind the last line of a side that lacks its newline |
| DiffText.HunksAreRead | internal/diff/diff.go:307-382 | From the lines of the output all hunks are read back: the four numbers, kinds and texts, markers or not |
| DiffText.HeaderNumbers | internal/diff/diff.go:307-382 | The numbers found in a header are start and count in the source and start and count in the target |
| DiffText.MarkersInFull | internal/diff/diff.go:330-375 | The lines of a last hunk in full, with the markers behind the last line of a side that lacks its newline if the hunk gets to its end |
| DiffText.BinaryInFull | internal/diff/diff.go:386-399 | Binary texts have both names and a message instead |
| DiffText.Unified | internal/diff/diff.go:386-417 | The whole output: empty exactly for texts with the same lines, a message for binary ones, and otherwise a text from which hunks can be read back that patch one text into the other |
| Diff.LinesOfText | internal/diff/diff.go:26-42 | Splitting loses the kind of the line ends and whether the last line had one, and nothing else |
| Diff.SameLines | internal/diff/diff.go:26-42 | Two texts are compared as the same exactly when they agree up to the kind of line ends and a last one |
| Diff.LastEndIsNoDifference | internal/diff/diff.go:26-42 | A text with a last newline and one without count as the same |
| LineEnds.LinesAreTold | internal/diff/diff.go:26-42 | For all lines and whatever ends each of them has, \n, \r\n or \r, the lines of the text are these, with a last one without an end if it is not empty; an empty line ended by \n right behind an end \r is no line of its own |
| LineEnds.EveryTextIsTold | internal/diff/diff.go:26-42 | Every text is one of these |
| LineEnds.EndsAreNoDifference | internal/diff/diff.go:26-42 | Texts with the same lines and any kinds of ends are compared as the same |
| LineEnds.LastEndMayBeMissing | internal/diff/diff.go:26-42 | So are texts of which one lacks the end of its last line, if that is not empty |
| DeltaInt.AppendInt | internal/delta/delta.go:333-345 | Writes the base-64 digits of a number, most significant first |
| DeltaInt.Reader.GetInt | internal/delta/delta.go:29-48 | Reads digits as a 64-bit number with wrap-around, and fails where none stands |
| DeltaInt.ReadEncoded | internal/delta/delta.go:29-48 | Reading back what was written gives the number, for all 64-bit numbers |
| DeltaInt.EncodeSize | internal/delta/delta.go:333-345 | A number below 64^n takes at most n digits |
| DeltaFormat.DigitOfValue | internal/delta/delta.go:190 | The digit of every value is the character at that place of the 64 |
| DeltaFormat.ValueOfDigit | internal/delta/delta.go:13-22 | The value of every byte is its place among the 64 digits, or -1 |
| DeltaApply.Checksum | internal/delta/delta.go:162-188 | The unrolled loop computes the sum of big-endian words modulo 2^32 |
| DeltaApply.Apply | internal/delta/delta.go:65-158 | Accepts exactly the well-formed deltas that stay inside the source and match length and checksum, and then returns what the commands build; every other input is an error, or an allocation the runtime refuses |
| DeltaApply.AppliedIsMeaning | internal/delta/delta.go:65-158 | Whatever is accepted is the concatenation of source parts and literals named by some command list |
| DeltaApply.ReadCopy | internal/delta/delta.go:106-127 | A copy command is accepted only inside the source |
| DeltaText.WrittenIsApplied | internal/delta/delta.go:65-158 | A header, commands that build the target, and the trailer apply to the target |
| DeltaText.RunWritten | internal/delta/delta.go:95-155 | Running over written commands adds their meaning to the output |
| DeltaFormat.DeltaInBytes | internal/delta/delta.go:65-158 | The bytes 6\n4@1,2:hi3Ao6Ha; applied to abcdef give bcdehi |
| DeltaFormat.WrongChecksum | internal/delta/delta.go:140-149 | Whatever the commands build, another checksum is a mismatch |
| DeltaFormat.WrongLength | internal/delta/delta.go:140-144 | Another length than announced is an error |
| DeltaFormat.CopyOutside | internal/delta/delta.go:106-127 | So is a copy that leaves the source, after any commands and whatever follows |
| DeltaFormat.NoTrailer | internal/delta/delta.go:95-157 | So is a delta that ends without its trailer |
| DeltaText.PanicsExactly | internal/delta/delta.go:65-95 | Applying panics exactly when the announced length is beyond the largest allocation |
| DeltaText.HugeLengthPanics | internal/delta/delta.go:65-95 | Such deltas exist: any header with a length of more than 2^48, whatever follows |
| DeltaCreate.MaskIsRemainder | internal/delta/delta.go:230-254 | Masking with a power of two less one is the remainder, so every slot is in range |
| DeltaCreate.BuildHashTable | internal/delta/delta.go:230-254 | Every block of the source is on the chain of its slot, and chains descend strictly |
| DeltaCreate.FindBest | internal/delta/delta.go:276-296 | The chain walk ends and finds a longest agreement with any block of the source |
| DeltaCreate.EmitMatches | internal/delta/delta.go:256-316 | The commands written build exactly the target, each the choice for its place: a longest copy from a block of the source where one agrees on 16 bytes or more, and else all the bytes up to the next such place; the buffer stays within the budget |
| DeltaCreate.CreateInsertAll | internal/delta/delta.go:318-331 | The single-insert delta applies to the target |
| DeltaCreate.Create | internal/delta/delta.go:200-228 | For all byte strings the delta applies to the target, and its commands are these choices; for inputs below 64^4 bytes it is at most 17 bytes longer than the target |
| DeltaCreate.SameIsOneCopy | internal/delta/delta.go:256-316 | The delta of a content of at least 16 bytes against itself is one copy of all of it |
| DeltaCreate.NothingSharedIsOneInsert | internal/delta/delta.go:256-316 | When no block of the source is found in the target, the delta is one insertion |
| DeltaCreate.MatchLen | internal/delta/delta.go:358-375 | The length of the common start of two strings |
| TagIndex.RightIsEffective | internal/tag/propagate.go:19-150 | A table that is right one step deep everywhere is the recursive definition: the nearest primary ancestor's propagating row |
| TagIndex.RightIsUnique | internal/tag/propagate.go:19-150 | There is only one such table |
| TagIndex.NearestIsInherited | internal/tag/propagate.go:19-150 | A checkin without a row of its own has that of the nearest primary ancestor with one, but for the artifact that set it, if that row propagates, and else none |
| TagIndex.VisitStep | internal/tag/propagate.go:110-146 | Visiting a child settles it and leaves exactly its own children to be visited |
| TagIndex.StaleExactly | internal/tag/tag.go:160-179 | When setting a row leaves the index wrong: exactly when some inheriting child keeps a row that the walk does not replace |
| TagIndex.SingletonLeavesStale | internal/tag/tag.go:160-179 | A concrete case: a singleton on a checkin whose child has inherited |
| TagIndex.NewerLeavesNothingStale | internal/tag/tag.go:160-179 | A propagating or cancelling row newer than all rows of its tag leaves nothing stale |
| TagStore.PopMin | internal/tag/propagate.go:152-185 | The heap gives an item of least mtime |
| TagStore.Repo.QueryChildren | internal/tag/propagate.go:50-108 | The primary children of a checkin with the test whether the walk goes there |
| TagStore.Repo.Propagate | internal/tag/propagate.go:19-150 | The pruned worklist makes the index right for its tag below the start, or, where it meets rows as recent, changes nothing; other tags are untouched |
| TagStore.Repo.PropagateAll | internal/tag/propagate.go:190-241 | Makes the index right when only children of the checkin are open, and changes nothing when it is right already |
| TagStore.Repo.ApplyTag | internal/tag/tag.go:143-183 | Sets the row, and the index is right afterwards exactly when nothing is left stale; a failed walk is rolled back |
| TagStore.Repo.CollectParents | internal/manifest/manifest.go:300-314 | The primary parent and the other parents, each once |
| TagStore.Repo.MarkLeaf | internal/manifest/manifest.go:251-287 | The leaf table stays exactly the checkins that nothing names as a parent, and the links to the parents are recorded, the first one with its time |
| TagStore.Repo.InlineTags | internal/manifest/manifest.go:95-121 | The inline tags of a new checkin become its direct rows, the last of each tag |
| TagStore.Repo.Checkin | internal/manifest/manifest.go:34-136 | A checkin keeps the tag index equal to its definition and the leaf table exact; it has the row of the last card of each tag, with its kind and value, inherits the other tags from its primary parent, and no other checkin's rows change; the first one of a repository starts branch trunk |
| TagStore.LastCardWins | internal/manifest/manifest.go:98-121 | The last card of a tag sets its row, with the card's kind and value |
| TagStore.OnlyCardsSetRows | internal/manifest/manifest.go:98-121 | Rows of other tags, and of other checkins, are not touched |
| TagStore.TagsOfCheckin | internal/manifest/manifest.go:95-136 | What a right index holds for a new checkin: rows of its own cards, else what its primary parent passes on; everything else as before |
| TagRuns.Run | internal/tag/propagate.go:19-150 | After any run of checkins, newer propagating or cancelling tags and repeated propagation the state is what the operations make of it one by one, and every row of the index is what the definition says; below a million checkins no walk gives up |
| TagRuns.NewerIsNewer | internal/tag/propagate.go:19-150 | Whether a tag is newer than all rows can be read off a right index |
| TagRuns.PropagateAgain | internal/tag/propagate.go:190-241 | Between operations, passing on all the tags of any checkin again changes nothing |
| SyncStore.Repo.StoreReceivedFile | internal/sync/client.go:709-789 | A file card is stored exactly when its content, or the delta applied to its source, bears its name and, if it is new, does not make the manifest parser panic; real artifacts never change or vanish, and the phantom table stays exact |
| ArtifactPanics.PanicsExactly | internal/sync/client.go:777-783 | Which contents make the parser panic |
| ArtifactPanics.BareWikiPanics | internal/deck/parse.go:38-46 | For one, a wiki card without anything and its checksum |
| ArtifactPanics.BareWikiIsNotStored | internal/sync/client.go:777-783 | No store takes that one as a new artifact |
| SyncStore.Repo.ResolvedIsMeaning | internal/sync/client.go:688-705 | A file card resolves to its payload alone, or to what some list of copies and insertions builds out of a source that is really there; the error for a missing source comes exactly when nothing has its name |
| SyncStore.Repo.StorePhantom | internal/blob/blob.go:144-181 | A phantom is added only for an unknown name, and nothing else changes |
| SyncStore.Repo.WithoutPhantoms | internal/blob/blob.go:231-244 | What exists is what is really there exactly when there is no phantom |
| SyncServer.Handler.HandleFile | internal/sync/handler.go:453-498 | Without a push card, or with content that does not bear its name, the store is unchanged and an error is answered; it panics, the store unchanged, exactly on a new content on which the parser or the allocation does |
| SyncServer.Handler.HandleIGot | internal/sync/handler.go:385-416 | A known artifact is remembered, an unknown one is asked for in either direction |
| SyncServer.Handler.HandleGimme | internal/sync/handler.go:418-451 | The whole content, an error for a phantom, nothing for an unknown name |
| SyncServer.Handler.EmitIGots | internal/sync/handler.go:521-569 | Announces exactly the real artifacts that the client did not announce |
| SyncServer.Handler.Process | internal/sync/handler.go:228-270 | Whatever the cards, the store invariant holds and whole contents of the store are sent; for whole good files the answer announces, requests and carries exactly what the two stores call for |
| SyncClient.Session.SendUnclustered | internal/sync/client.go:218-243 | Announces exactly the unclustered artifacts that the server has not announced |
| SyncClient.Session.BuildFileCards | internal/sync/client.go:310-359 | Sends queued files until the byte budget is used up: none is added after that, and none that is there stays queued before |
| SyncClient.Session.BuildGimmeCards | internal/sync/client.go:375-404 | Asks for as many announced artifacts as the limit allows, each once |
| SyncClient.Session.BuildRequest | internal/sync/client.go:29-214 | The cards of one request in terms of the session's state |
| SyncClient.Session.HandleCard | internal/sync/client.go:482-595 | One card of a response changes the session's view exactly as its kind says; a file that is stored while pulling promotes the phantom rows of the store |
| SyncClient.OrderDoesNotMatter | internal/sync/client.go:482-595 | Without phantom rows the view after a response does not depend on the order of its cards |
| SyncClient.Session.LoadDBPhantoms | internal/sync/client.go:794-815 | What is known by name only and not announced is asked for, too |
| SyncClient.Session.AgePhantoms | internal/sync/client.go:598-613 | Every undelivered phantom grows one round older and is given up at the third |
| SyncClient.ThreeRounds | internal/sync/client.go:598-613 | An artifact that is asked for in vain is asked for in three rounds |
| SyncClient.Session.ProcessResponse | internal/sync/client.go:482-678 | The new view after all cards, ages and files counted, and done exactly when nothing came, nothing was asked for, nothing is pending and nothing is unsent; the unsent table is cleared exactly when something was announced, nothing was asked for and nothing else is left, and stays otherwise |
| SyncLoop.RoundKeepsLink | internal/sync/session.go:171-262 | What client and server know of each other stays true over every round |
| SyncLoop.QuietMeansEqual | internal/sync/client.go:614-677 | The client's local decision that it is done implies that the two remote stores are equal, in every direction asked for |
| SyncLoop.OtherRoundsProgress | internal/sync/client.go:614-677 | Every other round brings the stores closer |
| SyncLoop.Exchange | internal/sync/session.go:212-243 | Request, answer and response together are one such round, and the unsent table is empty when the session is done |
| SyncLoop.Sync | internal/sync/session.go:171-262 | A fault-free session succeeds within two rounds per missing artifact and one more, with exactly the missing artifacts moved in the directions asked for equal stores and an empty unsent table; it fails only if that exceeds the cap, or for a pull without push when the client has artifacts of its own |
| CloneServer.CapRoundTrip | internal/sync/handler.go:24-44 | The snapshot bound survives the cookie and the parser |
| CloneServer.Handler.HandleControlCard | internal/sync/handler.go:324-339 | Cursor and bound are those of the last card that carries one, zero when none does; other cookies change nothing |
| CloneServer.Handler.SendRows | internal/sync/handler.go:678-711 | A batch is ascending, gapless, public, at most 200 rows, and more follow exactly when a row is left |
| CloneServer.Handler.EmitIGots | internal/sync/handler.go:521-572 | Announces exactly the public artifacts that have a content |
| CloneServer.Handler.HandleGimme | internal/sync/handler.go:418-451 | The whole content of a public artifact, an error for one that is known by its name only, and nothing otherwise |
| CloneServer.Handler.EmitCloneBatch | internal/sync/handler.go:644-730 | Whatever the response holds already, it is extended by the next batch within the snapshot and the new cursor, in the first round also by the bound of the snapshot, and by nothing else |
| CloneServer.Handler.Process | internal/sync/handler.go:163-270 | What is asked for by name and is there and public comes first, and nothing that was not asked for; a clone request then gets a batch, any other no further file; there is an error exactly when something asked for is known by its name only, the codes are named for a clone, and a pull, by a client that announces none, gets announcements of exactly the public artifacts |
| CloneClient.CloneSession.BuildRequest | internal/sync/clone.go:203-277 | Cookie, cursor and mode of each round; once the cursor is zero a pull instead of a clone, if both codes are known; phantoms are asked for only once the cursor is at most one |
| CloneClient.CloneSession.HandleFile | internal/sync/clone.go:396-419 | Stores whole files; a missing delta source makes phantoms of the artifact and the source; any other failure changes nothing |
| CloneClient.CloneSession.ProcessResponse | internal/sync/clone.go:299-393 | All good files are stored and counted, cursor and cookie are those of the last cards that carry them, the codes are the first ones named, and done means that no file came |
| CloneClient.FirstIsFirst | internal/sync/clone.go:308-327 | A code is first if no other stands before it |
| CloneLoop.NextBatch | internal/sync/handler.go:644-730 | Batch after batch the session holds every public row up to the cursor, also while others write |
| CloneLoop.FilesFillAStore | internal/sync/clone.go:396-419 | Storing the files of rows one by one gives exactly their contents under their names |
| CloneLoop.Clone | internal/sync/clone.go:114-189 | Whatever others write between rounds, a clone brings rows of the opening table only, each once and in rid order, and on success all public ones; it takes max(1, ceil(k/200)) + 1 rounds for k of them and, when no phantom is filled meanwhile, succeeds exactly when k is at most 19,800 |
| CloneLoop.CountOfDelivery | internal/sync/clone.go:114-189 | Without filled phantoms exactly the public rows of the opening table are received |
| ContentChains.WalkDeltaChain | internal/content/content.go:59-94 | Finds the chain to the root, root first, or a cycle that the artifact leads into |
| ContentChains.Expand | internal/content/content.go:14-57 | Returns the content exactly when the chain ends in a whole blob and every delta applies |
| ContentChains.CycleNeverExpands | internal/content/content.go:59-94 | Nothing on a cycle has a content |
| ContentChains.ExpandedUnfolds | internal/content/content.go:14-57 | The content of a delta is the delta applied to the content of its source |
| ContentChains.UndeltaKeeps | internal/shun/purge.go:59-79 | Replacing a delta by its content changes no content, neither its own nor any other |
| ContentChains.RemovalKeeps | internal/shun/purge.go:81-91 | Removing artifacts that no delta is based on changes no other content |
| ContentChains.GrowthKeeps | internal/blob/blob.go:12-142 | Storing leaves every content that could be expanded as it was |
| ContentStore.Store.StoreWhole | internal/blob/blob.go:12-68 | A new content is stored under a new rid and expands to itself; a known name, even a phantom's, leaves everything as it was; the read-back check cannot fail |
| ContentStore.Store.StoreDelta | internal/blob/blob.go:70-142 | The stored delta expands to itself applied to what its source expands to, hence to the content when the source is whole; a known name leaves everything as it was, a new one is stored unless its source is not there or its delta cannot be allocated, which contents below 64^4 bytes exclude; the check against the stored bytes cannot fail |
| ContentStore.Store.StorePhantom | internal/blob/blob.go:144-181 | Unknown names only; the phantom table stays exact |
| ContentStore.Store.FillPhantom | internal/sync/client.go:733-754 | The content takes the phantom's place and the phantom table stays exact |
| ContentStore.Store.UndeltaDependents | internal/shun/purge.go:40-79 | In any order, every delta based on a doomed artifact becomes whole and all contents stay; fails exactly when one does not expand |
| ContentStore.Store.Purge | internal/shun/purge.go:22-107 | Removes exactly the shunned artifacts and keeps the content of all others, with no delta left on a removed one; fails, changing nothing, exactly when a dependent does not expand; the reported counts are right, and after a failure count deltas whose replacement was rolled back |
| ContentStore.PurgedIsSound | internal/shun/purge.go:22-107 | A purge keeps names unique, every sound artifact sound, and makes no delta dangle |
| ContentStore.PurgedPhantoms | internal/shun/purge.go:81-101 | The phantom table is not purged: it stays exact exactly when no phantom was shunned |
| ContentStore.ShunnedPhantomIsLeft | internal/shun/purge.go:81-101 | For one: a repository whose only artifact is a shunned phantom |
| ContentCache.Cache.Lookup | internal/content/cache.go:60-70 | A hit comes to the front of the list; hits and misses are counted; index, list and size stay consistent |
| ContentCache.Cache.Insert | internal/content/cache.go:77-98 | The new entry comes first and exactly the longest front part that fits is kept |
| ContentCache.Cache.EvictOldest | internal/content/cache.go:101-110 | The least recently used entry goes |
| ContentCache.Cache.Invalidate | internal/content/cache.go:113-125 | Exactly the one entry goes |
| ContentCache.Cache.Clear | internal/content/cache.go:128-137 | Everything goes |
| CacheRuns.Readers.DoLookUp | internal/content/cache.go:60-73 | A hit is what the store expands to at that moment |
| CacheRuns.Readers.DoFetch | internal/content/cache.go:75-78 | Outside the lock, one query, which does what it is said to do; it fails only if the store does not expand the artifact at that moment, and is done only with what it expands to |
| CacheFetches.WalkOn | internal/content/content.go:70-88 | The query for one delta source: the walk goes on, or comes to the root, or back to itself, and what has been found out is still so |
| CacheFetches.LoadOn | internal/content/content.go:32-46 | The query for the bytes of one link: what has been built is the content of that link; at the end of the chain it is the result |
| CacheFetches.StaysCurrent | internal/blob/blob.go:12-181 | What stores and phantom fills do in between leaves all of it so |
| CacheFetches.UnknownIsMisread | internal/content/content.go:59-94 | An artifact asked for before it is there can be misread: its stored delta is taken for its content |
| CacheRuns.Readers.DoInsert | internal/content/cache.go:80-98 | What was fetched earlier is still what the store expands to |
| CacheRuns.Readers.Run | internal/content/cache.go:55-137 | For every schedule of readers, invalidations and writers, the state goes through what each step that can be taken is said to do; at every moment all contents given out are what the store expands to, and the cache keeps its accounts and its size |
| Paths.Neighbors | internal/path/path.go:83-104 | Exactly the adjacent checkins, over all edges or the primary ones only |
| Paths.WalksAreFound | internal/path/path.go:46-80 | A walk leads to a found node at no greater depth, or is longer than what was expanded |
| Paths.FoundIsShortest | internal/path/path.go:66-76 | The first time the target is found the path is a shortest one |
| Paths.Reconstruct | internal/path/path.go:108-119 | The path in forward order with depths counted from zero |
| Paths.Shortest | internal/path/path.go:24-80 | A shortest path that avoids the skipped nodes, or none exactly when there is none |
| Forest.ShortestIsSimple | internal/path/path.go:24-80 | A shortest path visits nothing twice |
| Forest.SimplePathIsUnique | internal/path/path.go:24-80 | Along primary parents there is at most one simple path between two checkins |
| Bisect.Session.Next | internal/bisect/bisect.go:84-124 | The testable commit nearest to the middle of a shortest path, the later of two; complete exactly when there is none |
| Bisect.Session.ParseSkipSet | internal/bisect/bisect.go:259-276 | The numbers of the words of the log that start with s |
| Bisect.Session.Skip | internal/bisect/bisect.go:74-79 | One more commit is skipped, as the log is read, which has one word more: s and its number |
| Bisect.Session.AppendLogEntry | internal/bisect/bisect.go:246-257 | The log read word by word has exactly one word more |
| Bisect.NearestTestable | internal/bisect/bisect.go:103-118 | The outward search finds the nearest testable index |
| Bisect.NextIsNew | internal/bisect/bisect.go:84-124 | What is to be tested is neither a mark nor skipped |
| Bisect.HalvingsIsLog | internal/bisect/bisect.go:84-124 | The number of halvings is the logarithm to base two, rounded up |
| Bisect.HalfIsLeft | internal/bisect/bisect.go:99-124 | From the middle, at most half the edges are left either way, rounded up |
| Bisect.NextIsInside | internal/bisect/bisect.go:99-124 | A commit strictly between the marks is tested, unless all of them are skipped |
| Bisect.NextIsNearest | internal/bisect/bisect.go:103-118 | Nothing that can be tested lies nearer to the middle, and of two as near the later one is tested |
| Bisect.PartIsNarrowed | internal/bisect/bisect.go:99-124 | Either answer leaves a shortest path; in a forest it is the part of the first path up to or from the commit tested |
| Bisect.Search | internal/bisect/bisect.go:84-124 | The search ends with only skipped commits between the marks; there are at most as many answers as commits between them, and without skips at most ceil(log2 e), the marks ending adjacent; in the forest of primary parents, where the answers turn from good to bad once, they turn between the marks |
| MergeAlign.FillTable | internal/merge/threeway.go:102-119 | Every entry of the table is the longest common subsequence of two suffixes |
| MergeAlign.LongestCommonSubseq | internal/merge/threeway.go:102-135 | A strictly increasing common matching of maximal length |
| MergeAlign.DiffLines | internal/merge/threeway.go:68-94 | The hunks are in order, at least one base line apart, all change something, replay the base into the modified version, and leave a longest common subsequence alone |
| MergeText.OrderIsUnique | internal/merge/threeway.go:173-238 | There is only one way to put hunks in order |
| MergeText.MergeIsUnique | internal/merge/threeway.go:173-238 | Two sides merge to one text only |
| MergeText.SeparatedIsCompatible | internal/merge/threeway.go:173-238 | Changes with a base line between any two of them are compatible either way round |
| MergeText.MergeIsSymmetric | internal/merge/threeway.go:173-238 | A merge is also one with the sides swapped, if both insert the same wherever both insert at one place |
| MergeText.MergeWithNothing | internal/merge/threeway.go:27-35 | Merging with an unchanged side gives the other side and nothing else, as the fast paths do |
| MergeText.TakeLocal | internal/merge/threeway.go:226-229 | Taking the local hunk that starts first continues the merged text; a remote insertion that undercuts it comes next, in front of the lines that stay |
| MergeText.TakeRemote | internal/merge/threeway.go:230-234 | Taking the remote hunk that starts first continues the merged text |
| MergeText.CompatibleExactly | internal/merge/threeway.go:173-238 | Both lists are applied exactly when they are compatible: hunks that overlap cannot be, and undercut ones keep lines that would be gone |
| MergeText.UndercutLineIsBack | internal/merge/threeway.go:226-234 | Base a, b, c with b replaced by X locally and Y inserted before it remotely gives a, X, Y, b, c |
| MergeText.TwoInsertions | internal/merge/threeway.go:240-242 | Insertions of both sides at one place both stand in the result, local first, even if they are the same |
| MergeText.TwoOverlapping | internal/merge/threeway.go:140-170 | Of two overlapping changes the lines that one of them covers give way once, to their lines if these are the same, and else to both versions between markers, with one conflict |
| MergeText.MarkersInFull | internal/merge/threeway.go:158-170 | The markers, and the newline that a last line without one gets |
| MergeText.SettledIsUnique | internal/merge/threeway.go:173-238 | There is only one such result |
| MergeText.TakeBoth | internal/merge/threeway.go:204-216 | Taking two overlapping changes as one continues the merged text |
| MergeText.Merge3 | internal/merge/threeway.go:137-238 | The lines of every hunk of both sides stand in the result, and every conflict is one of two overlapping, different changes. If every change overlaps at most one of the other side, and none if a remote insertion undercuts it, the conflicts are exactly those of overlapping changes with different lines, in order, and the result is the base with both lists applied, each overlapping pair as one change; undercut changes keep the base lines they replaced. If nothing is undercut, the first overlapping changes are a conflict unless their lines are the same. Both lists are applied as they are exactly when none overlap and none is undercut |
| MergeText.SplitJoin | internal/merge/threeway.go:256-265 | Splitting into lines loses nothing; all pieces but the last have their newline |
| MergeText.Merge | internal/merge/threeway.go:16-58 | Fast paths give the changed side; compatible changes merge cleanly to both, changes that do not overlap never conflict, and where each overlaps at most one of the other side, the conflicts and the text are those of `Merge3`; each side's changes leave a longest common subsequence alone |
| FossilText.FossilEncode | internal/deck/encode.go:5-21 | Escapes blanks, newlines and backslashes |
| FossilText.FossilDecode | internal/deck/encode.go:23-46 | Undoes escapes; a backslash that starts none stays |
| FossilText.DecodeUndoesEncode | internal/deck/encode.go:5-46 | Decoding gives back every text |
| TextFormat.EncodedCharacters | internal/deck/encode.go:5-21 | A blank, a newline and a backslash are escaped by s, n and a backslash, and nothing else is |
| TextFormat.EncodedConcat | internal/deck/encode.go:5-21 | Every character is escaped on its own |
| TextFormat.DecodedCharacters | internal/deck/encode.go:23-46 | Every escape is taken for its character, anything else for itself |
| Words.FieldsOfLine | internal/xfer/decode.go:90-95 | Words joined by blanks are split into the same words, with white space as in Unicode, in UTF-8 |
| Words.FieldsAreTokens | internal/xfer/decode.go:90-95 | Every field is a word without white space |
| Words.FieldsOfTwo | internal/xfer/decode.go:90-95 | White space of any kind splits a text into two with the same words |
| TextFormat.SpaceIsWhiteSpace | internal/xfer/decode.go:90-95 | Of all code points, just 25 in UTF-8 are white space: U+0009 to U+000D, U+0020, U+0085, U+00A0, U+1680, U+2000 to U+200A, U+2028, U+2029, U+202F, U+205F and U+3000 |
| FossilText.EncodedIsToken | internal/deck/encode.go:5-21 | Escaping leaves white space exactly where it was other than a blank or a newline |
| FossilText.DecodedIsEscapable | internal/deck/encode.go:23-46 | Unescaping brings in no white space but blanks and newlines |
| Reading.Reader.ReadString | internal/xfer/decode.go:60-68 | The line up to the newline, and the rest behind it |
| XferCards.CommandsAreKinds | internal/xfer/decode.go:97-149 | Every printed first word is dispatched to its own parser |
| XferFormat.OtherWordsAreUnknown | internal/xfer/decode.go:97-149 | No other first word than these 24 announces a card of a known kind |
| XferCards.ParsePrinted | internal/xfer/decode.go:90-150 | Each of the 25 kinds of well-formed card is parsed back from its line and payload, leaving exactly what follows |
| XferFormat.WordsRefused | internal/xfer/decode.go:152-302 | Which lines without numbers are refused: those with too few or too many words |
| XferFormat.NumbersRefused | internal/xfer/decode.go:230-326 | Which lines with numbers are refused: also those whose numbers are none |
| XferFormat.PayloadsRefused | internal/xfer/decode.go:328-569 | Which lines that announce a payload are refused: also those with less left than they announce, and rows beyond 64 MiB |
| XferFormat.CompressedRefused | internal/xfer/decode.go:355-402 | Which compressed files are refused: also those that do not expand, or not to the announced size unless they are deltas |
| XferFormat.PrivateMark | internal/xfer/decode.go:152-161 | A private announcement is marked by 1 and by nothing else |
| XferEncode.EncodeCard | internal/xfer/encode.go:12-73 | Every printer appends exactly the wire form of its card to the shared buffer |
| XferEncode.EncodeFile | internal/xfer/encode.go:232-243 | A file's line, with the delta source if there is one, and the bare content |
| XferEncode.EncodeCFile | internal/xfer/encode.go:247-267 | The same for compressed content, with both sizes |
| XferEncode.EncodeUVFile | internal/xfer/encode.go:280-287 | Content only if the flags say so |
| XferEncode.EncodePragma | internal/xfer/encode.go:177-186 | The name and all values |
| XferFormat.FileInFull | internal/xfer/encode.go:232-243 | The bytes of a file card, with and without a delta source |
| XferFormat.CFileInFull | internal/xfer/encode.go:247-267 | The bytes of a compressed one |
| XferFormat.AnnouncementsInFull | internal/xfer/encode.go:75-168 | The bytes of announcements, requests, cookies and cursors |
| XferFormat.SessionsInFull | internal/xfer/encode.go:101-163 | The bytes of push, pull, clone and private cards; the project comes first |
| XferFormat.TextsInFull | internal/xfer/encode.go:188-211 | The bytes of logins, errors and messages |
| XferFormat.OthersInFull | internal/xfer/encode.go:177-230 | The bytes of pragmas and of cards of unknown kinds |
| XferFormat.UnversionedInFull | internal/xfer/encode.go:170-287 | The bytes of cards about unversioned files, whose content the flags 1 and 4 omit |
| XferFormat.TablesInFull | internal/xfer/encode.go:289-343 | The bytes of schemas, rows and deletions, with a newline behind their content |
| XferFormat.TableTalkInFull | internal/xfer/encode.go:271-316 | The bytes of what is said of rows, and of settings |
| XferMessage.DecodeCard | internal/xfer/decode.go:55-86 | The next card after empty lines and comments, the end, an error, or the panic of the payload buffer |
| XferFormat.LinesAreSkipped | internal/xfer/decode.go:55-79 | Lines without anything but carriage returns are skipped, and so are comments |
| XferFormat.ReturnsAreIgnored | internal/xfer/decode.go:65 | A line is read without the carriage returns at its end, and the last one without its newline |
| XferMessage.NextIsPrinted | internal/xfer/encode.go:228-287 | A printed card is read back whatever follows it, with or without a newline behind its payload |
| XferMessage.EncodeUncompressed | internal/xfer/message.go:48-56 | The printed cards in order |
| XferMessage.DecodeUncompressed | internal/xfer/message.go:105-118 | All cards of a text, or the index of the first bad one, or the panic of a payload buffer |
| XferMessage.MessageRoundTrip | internal/xfer/message.go:48-118 | Decoding gives back every list of well-formed cards |
| XferFormat.BadCardIsNumbered | internal/xfer/message.go:105-118 | Behind well-formed cards the next one decides: a bad one is known by their number, a panic is one, and at the end they are all |
| XferExact.NextExactly | internal/xfer/decode.go:55-150 | A printed card is read back, leaving exactly what follows, if and only if it is well-formed |
| XferExact.MessageExactly | internal/xfer/message.go:48-118 | A message is read back if and only if all its cards are well-formed |
| XferExact.ParsedIsPlain | internal/xfer/decode.go:90-569 | What every parsed card is like |
| XferExact.LinePanicsExactly | internal/xfer/decode.go:14-31 | A line panics exactly when the payload size that it announces unchecked is negative or beyond the largest allocation |
| XferExact.CrashExactly | internal/xfer/message.go:105-118 | Decoding panics exactly when such a line follows whole cards |
| XferExact.WellFormedIsPrintable | internal/xfer/encode.go:12-73 | The printers refuse no card that can be read back |
| XferMessage.EmptyErrorIsLost | internal/xfer/decode.go:290-295 | An error card without text is printed as a line that the parser refuses |
| XferMessage.SpacedErrorIsLost | internal/xfer/decode.go:290-295 | So is one with white space that is not escaped |
| XferMessage.NoBreakSpaceIsLost | internal/xfer/decode.go:290-295 | For example U+00A0 |
| Sorting.SortBy | internal/deck/marshal.go:59-62 | A sorted permutation |
| Sorting.FirstDifferenceDecides | internal/deck/marshal.go:59-62 | Texts are ordered bytewise by their first difference, a text before those that go on from it |
| DeckCards.FileRoundTrip | internal/deck/parse.go:184-201 | A file card's words give back the file card |
| DeckCards.TagRoundTrip | internal/deck/parse.go:228-244 | What a tag card is read back as: itself, but a type outside ASCII is printed as two bytes, of which the second becomes part of the name |
| DeckCards.AttachmentRoundTrip | internal/deck/parse.go:149-160 | An attachment card's text gives back the attachment |
| DeckCards.TicketRoundTrip | internal/deck/parse.go:203-211 | A ticket field's text gives back the field |
| DeckCards.PickRoundTrip | internal/deck/parse.go:213-226 | A cherry pick's text gives back the cherry pick |
| DeckCards.EventRoundTrip | internal/deck/parse.go:171-182 | An event card's text gives back date and uuid |
| DeckCards.SpaceSplitsName | internal/deck/encode.go:5-21 | White space other than a blank or a newline is not escaped: a file name with it is read as name and uuid, and the uuid as the permissions |
| DeckRoundTrip.LetterIsRead | internal/deck/parse.go:88-147 | What the cards of each letter are read as, on top of those before; the same cards, but for tags of types outside ASCII |
| DeckRoundTrip.TagsReadExactly | internal/deck/marshal.go:141-154 | Tags are read back exactly when their types are in ASCII |
| DeckText.Marshal | internal/deck/marshal.go:9-164 | Cards in the order of their letters, files, members and tags sorted, then the checksum over all of it |
| DeckFormat.LettersInOrder | internal/deck/marshal.go:21-164 | The 19 letters before W, in ascending order |
| DeckFormat.WordCards | internal/deck/marshal.go:43-102 | The lines of cards of one word, under B, G, I and K |
| DeckFormat.MoreWordCards | internal/deck/marshal.go:107-138 | The same under M, N, P and R |
| DeckFormat.EscapedCards | internal/deck/marshal.go:47-159 | The lines of cards of escaped text, under C, H, L and U |
| DeckFormat.AttachmentCards | internal/deck/marshal.go:31-41 | An attachment's line |
| DeckFormat.TimeCards | internal/deck/marshal.go:51-57 | The lines of a time and of an event |
| DeckFormat.FileCards | internal/deck/marshal.go:59-80 | A file's line |
| DeckFormat.TicketCards | internal/deck/marshal.go:92-98 | A ticket field's line |
| DeckFormat.PickCards | internal/deck/marshal.go:124-134 | A cherry pick's line |
| DeckFormat.TagCards | internal/deck/marshal.go:140-155 | A tag's line |
| DeckFormat.SortedByKeys | internal/deck/marshal.go:57-148 | Files are printed by name, members by themselves, tags by type, name and what they are set on |
| DeckText.Parse | internal/deck/parse.go:11-72 | The loop over the lines: order of the letters, one parser per letter, the raw wiki text, its panics included |
| DeckFormat.RefusedExactly | internal/deck/parse.go:88-244 | Which cards are refused: unknown letters, attachments, events and tags without the blank they need, times that cannot be parsed, files without a word, and cherry picks and tags of less than two characters |
| DeckFormat.DescendingIsRefused | internal/deck/parse.go:56-59 | Lines whose letters descend are refused, whatever stands before |
| DeckFormat.TypeExactly | internal/deck/parse.go:268-289 | The type of a manifest, each exactly when its cards are there and no earlier one's are |
| DeckFormat.ChecksumExactly | internal/deck/zcard.go:9-23 | A text is looked at exactly when it ends with the checksum of what stands before |
| DeckFormat.SpaceIsTrimmed | internal/deck/parse.go:115-145 | White space of any kind around a text is cut off |
| DeckText.ManifestIsRead | internal/deck/parse.go:11-72 | What a printed manifest is read as when everything but the types of its tags is in order |
| DeckText.ManifestRoundTrip | internal/deck/parse.go:11-72 | Parsing a printed manifest gives it back, with its type inferred, for all well-formed manifests |
| DeckExact.ManifestExactly | internal/deck/parse.go:11-72 | A printed manifest is read back if and only if it is well-formed |
| DeckExact.MarshalExactly | internal/deck/marshal.go:9-164 | So is what is marshalled, sorted, if and only if the manifest given is well-formed |
| DeckExact.ParsedIsShaped | internal/deck/parse.go:11-147 | What every parsed manifest is like |
| DeckExact.SpacedIsMisread | internal/deck/encode.go:5-21 | So a whole manifest with such a file name is read as another one |
| DeckExact.TwoMisreadNames | internal/deck/parse.go:184-201 | For example with a tab, or with the ideographic space U+3000 |
| DeckExact.HighTypeIsMisread | internal/deck/marshal.go:141-154 | A tag of type 0xE9 is read as one of type 0xC3 with another name |
| DeckExact.CrashExactly | internal/deck/parse.go:32-57 | Parsing panics exactly when the checksum is right and a wiki card is reached that has no argument, or a size that is negative or beyond the largest allocation |
| DeckText.SortingKeepsForm | internal/deck/marshal.go:57-140 | Sorting neither makes nor breaks well-formedness, so that the round trip covers whatever is marshalled |
| DeckText.SortingIsDetermined | internal/deck/marshal.go:57-140 | When no two files share a name, and no two tags all but the value, there is only one order to print |
| DeltaManifests.Manifests.ListFiles | internal/manifest/files.go:20-57 | A full manifest's files, or the baseline's overlaid by the delta's |
| DeltaManifests.Difference | internal/manifest/manifest.go:380-401 | Exactly the files whose content differs from the baseline and the removed ones, comparing contents only |
| DeltaManifests.DifferenceHasOneSize | internal/manifest/manifest.go:389-403 | There is only one number of cards by which files differ from a baseline |
| DeltaManifests.Manifests.ApplyDelta | internal/manifest/manifest.go:354-408 | The baseline is always a full manifest, the parent's or the parent itself, and a delta is used exactly if it has fewer cards than there are files |
| DeltaManifests.DifferenceStandsFor | internal/manifest/manifest.go:380-401 | The difference laid over the baseline lists the given names and contents, and the given permissions exactly when no file changed its permissions alone |
| DeltaManifests.CommitLists | internal/manifest/files.go:20-57 | A commit lists its files and leaves all earlier listings as they were |
| DeltaManifests.Manifests.Checkin | internal/manifest/manifest.go:152-226 | In every run the listing of a checkin, read from the stored texts, is the supplied map of names to contents, earlier listings stay, and every baseline is full; the stored manifest has the other cards that were given, and is a delta exactly if that was asked for and has fewer cards; for manifests that can be read back |
| DeltaManifests.PermissionIsLost | internal/manifest/manifest.go:391-396 | A file that only became executable is lost from a delta manifest |
| Decimal.IntRoundTrip | internal/xfer/decode.go:250-259 | Every 64-bit number is read back from its decimal text |
| TextFormat.NumbersAreDecimal | internal/xfer/encode.go:165-168 | Numbers are printed in decimal, the most significant digit first, without leading zeros |
| TextFormat.NumbersAreRead | internal/xfer/decode.go:250-259 | A sign may stand in front, zeros may lead, and what exceeds 64 bits is refused |
| TextFormat.OthersAreRefused | internal/xfer/decode.go:250-259 | Whatever has another character in it is refused |

## Left out

- SQLite, HTTP, the command line, the web interface, observers and fault injection: plumbing. The clone result in particular is for runs without injected faults: the truncation fault drops a file without moving the cursor back.
- zlib, SHA-1, SHA-3, MD5 and the calendar: parameters. `Load`'s guess whether stored bytes are compressed is not modelled; contents are kept uncompressed.
- Login, capabilities, private artifacts and shunned names in sync, unversioned files, table sync and check-in locks: further branches that do not change what a session moves. Clone does skip private rows.
- Cluster artifacts, `req-clusters` and `sendAllClusters`: the unclustered table is modelled, clusters are not.
- Phantom rows left over from an earlier session: `Exists` counts them as present, so `SyncLoop.Sync` does not cover them; what a card does to a client that has some is in `SyncClient.Session.HandleCard`.
- CloneServer.Handler.Process: files and announcements in a request are not looked at, since a clone client sends none; a server that gets some announces less. `SyncServer` has these branches.
- Clone phases for delta-coded files: the client's phantoms and requests are modelled, but this server sends whole files, so that none arise in `CloneLoop.Clone`, where the branch for them is proved unreachable. The login card and the codes of the two sides are carried but not checked.
- TagStore.Repo.ApplyTag: the background colour that two special tags copy into the event table, and numeric tag ids (names are the keys), are not modelled.
- TagRuns.Run: singleton tags on checkins with children and tags that are not newer are refused there; what they do is in `ApplyTag`.
- Crosslinking of received manifests, including the leaf table when a child is linked before its parent.
- ContentStore.Store.StoreDelta: a source that is itself a delta is compared by its stored bytes, as in the source; the content is claimed only for whole sources.
- The cache under deletions: a purge does not clear it, so `CacheRuns.Readers.Run` has stores, phantom fills and invalidations only. Artifacts are asked for only once they are there; what happens otherwise is in `CacheFetches.UnknownIsMisread`.
- Bisect's `Status`, `List` and `Reset`; the marks are kept as numbers, the log as its text.
- MergeText.Merge3: where a change overlaps several of the other side, or an undercut one overlaps any, only that every change's lines stand in the result, that conflicts are justified and, if none is undercut, which one comes first; hunks that start within an overlap already taken are merged as the code does, which is not described further.
- The merge strategies other than the three-way one.
- XferCards.ParsePrinted: the parsers of payload cards are functions of the remaining text, which give back what is left; the reader then moves there. The same holds for what is shown to be read back in `XferExact`.
- DeckText.ManifestRoundTrip: the text of a single card and its parsing are functions; the loops over cards and lines, which write to a builder and read from a reader, are methods. Times are whole milliseconds, printed and parsed by a clock with the two formats; the second, lower-case format is part of that clock.
- DeltaManifests.Manifests.Checkin: only manifests that can be read back are committed (`DeckExact` says what becomes of others); names of artifacts are assumed to be injective; sorting of the listing and the R-card are not modelled.
- TagStore.Repo.Checkin: a checkin gets a new rid here. In the source one whose manifest is stored already gets the rid that it has, which may be smaller than its parent's.
- TagIndex: in every forest here rids grow from parent to child, as they do when checkins are made one after the other; crosslinked manifests need not come in that order.
- Copying the parent's files into a commit, and what that means for deletions in a repository merge.
