# Auru PM, verified

Auru PM keeps versions of music projects: it normalises a project into a
structured snapshot, merges snapshots three ways, backs projects up by itself
when they have been quiet for a while, and restores a version over a project
folder without ever losing the folder it replaces. This project models those
parts and proves what they promise.

| files | what they are about |
|---|---|
| `Json`, `Locations`, `PathGrammar`, `Merge`, `MergeRules`, `Branches` | JSON values, the printed paths of conflicts, their parser and their language, the merge and its loops, its rules place by place, one level of it seen uniformly |
| `Conflicts`, `Contested`, `Edits`, `OneSided`, `DisjointEdits`, `Resolve`, `Patching`, `Misread`, `RemoteWins` | what the merge reports and in which order, what it keeps of one-sided and disjoint edits, the conflict patcher, paths that do not lead back, and every vector of choices |
| `FileTree`, `TreeLaws`, `Restore` | hashing, verifying and overlaying directory trees; the replacement of a project folder with rollback |
| `Xml`, `XmlGrammar`, `XmlFidelity`, `Dawproject`, `ArchivePaths`, `DawprojectXml` | the XML event writer and the stack-driven reader, the documents it accepts, document-order traversal, the DAWproject archive, its paths and its documents |
| `AutomaticBackup`, `BackupProtocol`, `BackupRules`, `BackupOnce`, `BackupTwice`, `BackupDriver` | the backup policy, the machine of saves, polls, records, uploads, crashes and restarts, its safety over every run, and the driver's own loops |
| `ClipDiff`, `ClipRules`, `ClipCards`, `ClipTotals`, `BarBeat`, `Catalogue`, `CatalogueRules`, `Canonical` | the structured diff, its rows and cards and what its totals account for, musical positions, a provider's catalogue in the library, key sorting of blobs |

`dafny verify dfyconfig.toml` checks all of it.

The source's loops are methods with invariants, proved against specification
functions (`Merged`, `Clashes`, `Parsed`, `Overlay`, `Reconciled`, ...); the
classes `Volume`, `Descendants`, `AutomaticBackupScheduler`, `Driver` and
`Library` hold state that the source changes in place. The laws are lemmas
about the specification functions, so they hold of what the loops compute. The
main ones are also pinned down by laws that name none of their helpers and say
of the inputs alone what the result is (`MergeRules`, `Contested`, `Patching`,
`TreeLaws`, `XmlGrammar`, `BackupRules`, `ClipRules`, `CatalogueRules`, ...).

## What the proofs brought to light

- An edit made on one side only is not always kept. It is kept exactly when it
  does not shorten an array without identity and leaves the elements of identity
  arrays in the merge's order (`OneSided.OneSidedEdit`). A shortened array comes
  back padded with null (`OneSided.ShortenedArrayIsPadded`) and a reordered
  identity array in its old order (`OneSided.ReorderingIsUndone`).
- Choosing Remote everywhere gives the merge with the sides exchanged exactly
  when, at every identity array the merge reaches, one side's additions are a
  prefix of the other's (`RemoteWins.RemoteEverywhere`). That no identity array
  gains elements on both sides is a special case.
- Taking the remote side of a conflict does what it says if and only if every
  key, id and index on the way to it can be read back from its printed path
  (`Misread.SafeLocationsExactly`). From any other conflict the resolver fails or
  changes something else, and such conflicts do occur (`Misread.AddedKeyConflicts`).
- An XML comment holding `&`, `<`, `>` or a quotation mark comes back escaped
  (`XmlFidelity.CommentIsEscaped`); the exact condition for a faithful round trip
  is `XmlFidelity.XmlRoundTrip`.
- While the saves of a project move forward in time, no revision is published
  automatically a second time if and only if there is a state file to write and
  no file can be older than the epoch (`BackupTwice.NeverTwiceExactly`). Otherwise
  a crash between the upload and the sidecar repeats it, because nothing durable
  remembers the attempt.
- Changing only the notes of a clip yields a structured diff without a card
  (`ClipTotals.NoteEditIsDropped`). The modified clips counted are all that differ
  if and only if no channel holding one is without words for its other changes
  (`ClipTotals.ModifiedAccounted`).

## Model

| member | source | states |
|---|---|---|
| `Locations.DecimalValue` | crates/auru-pm-kernel/src/merge.rs:452-457 | an index written in decimal stands for that index |
| `Locations.DecimalParses` | crates/auru-pm-kernel/src/merge.rs:108-112 | a printed index is read back as that index exactly when it fits a 64-bit usize |
| `Locations.ConflictPathSegments` | crates/auru-pm-kernel/src/merge.rs:82-116 | the cursor loop computes the recursive parse of the path, including its refusals |
| `Locations.NextSegment` | crates/auru-pm-kernel/src/merge.rs:91-113 | one turn of the loop: the first segment with what it takes up, or nothing exactly when the whole path is malformed there |
| `Locations.ParsedIsSafe` | crates/auru-pm-kernel/src/merge.rs:82-116 | every segment the parser returns is one that prints safely |
| `Locations.RoundTrip` | crates/auru-pm-kernel/src/merge.rs:82-116 | parsing what the merge prints gives the location back if and only if its keys, ids and indices are safe |
| `Locations.PrintInjective` | crates/auru-pm-kernel/src/merge.rs:490-496 | distinct safe locations have distinct paths |
| `PathGrammar.NumberReads` | crates/auru-pm-kernel/src/merge.rs:108-112 | a piece of a path is a number if and only if it is a plus sign or none, zeros and the decimal digits of an index that fits |
| `PathGrammar.PathReads` | crates/auru-pm-kernel/src/merge.rs:82-116 | the parser returns a location if and only if the path is its pieces one after another with dots between them, and refuses what is no such sequence |
| `Merge.MergeThree` | crates/auru-pm-kernel/src/merge.rs:203-214 | the loops compute the specified merged value and, in order, every clash with its printed path; clean exactly when there is none |
| `Merge.MergeValues` | crates/auru-pm-kernel/src/merge.rs:232-248 | dispatch on objects, arrays and the rest, appending exactly the clashes below this place |
| `Merge.MergeObjects` | crates/auru-pm-kernel/src/merge.rs:250-345 | a key is in the result exactly when some side keeps it, with the side's value or the merge of both |
| `Merge.MergeFields` | crates/auru-pm-kernel/src/merge.rs:268-343 | the loop over the sorted union of keys collects the merged fields and the clashes in key order |
| `Merge.MergeField` | crates/auru-pm-kernel/src/merge.rs:268-342 | the fifteen-way match on presence and change amounts to keep, take, drop, descend or clash |
| `Merge.MergeArraysById` | crates/auru-pm-kernel/src/merge.rs:372-439 | ancestor survivors, then local additions, then remote additions local lacks |
| `Merge.MergeSurvivors` | crates/auru-pm-kernel/src/merge.rs:386-420 | the first pass over the ancestor yields its survivors in order, and their clashes |
| `Merge.MergeSurvivor` | crates/auru-pm-kernel/src/merge.rs:387-419 | deleted on one side and unchanged on the other drops an element; modified keeps it |
| `Merge.AppendFresh` | crates/auru-pm-kernel/src/merge.rs:422-436 | a later pass appends the elements whose id is not known, in order |
| `Merge.MergeArraysByIndex` | crates/auru-pm-kernel/src/merge.rs:441-461 | position by position to the longest input, null past an end |
| `Merge.MergeScalar` | crates/auru-pm-kernel/src/merge.rs:463-488 | the changed side wins; two different changes clash and keep local |
| `MergeRules.KeptExactly` | crates/auru-pm-kernel/src/merge.rs:279-436 | a key or id is in the result if and only if both sides have it, a side added it, or the only side that kept the ancestor's changed it |
| `MergeRules.MergedChild` | crates/auru-pm-kernel/src/merge.rs:279-436 | and then holds the value of the side that has it alone, of the side that changed it against a deletion or an unchanged side, the local one of two additions, or the merge of two changes |
| `MergeRules.IndexArrayExactly` | crates/auru-pm-kernel/src/merge.rs:441-461 | an array without identity is as long as the longest input, each position merged from what the inputs have there or null |
| `MergeRules.LeafExactly` | crates/auru-pm-kernel/src/merge.rs:463-488 | anything else is the remote value if only remote changed it or is taken, and the local one otherwise |
| `MergeRules.LastOfId` | crates/auru-pm-kernel/src/merge.rs:380-382 | where an id is repeated, the last element with it counts |
| `Branches.ClashesByBranch` | crates/auru-pm-kernel/src/merge.rs:232-461 | the clashes of a container are those of its branches, one after another |
| `Branches.ClashBranch` | crates/auru-pm-kernel/src/merge.rs:232-461 | every clash inside a container belongs to one branch of it |
| `Branches.ClashesUnder` | crates/auru-pm-kernel/src/merge.rs:415-457 | every clash found below a place extends its location |
| `Conflicts.ConflictsAreGenuine` | crates/auru-pm-kernel/src/merge.rs:326-338 | both sides are present, so resolving never removes anything; at the conflict's location each input holds what is reported, null past an array's end, and the sides differ from each other and the ancestor |
| `Conflicts.ConflictsAreApart` | crates/auru-pm-kernel/src/merge.rs:463-488 | no conflict's location is a prefix of another's |
| `Conflicts.ConflictsAreSymmetric` | crates/auru-pm-kernel/src/merge.rs:203-345 | exchanging local and remote gives the same conflicts in the same order with the sides exchanged |
| `Conflicts.EqualSidesNeverConflict` | crates/auru-pm-kernel/src/merge.rs:474-478 | equal sides never conflict, whatever the ancestor |
| `Contested.ReportedExactly` | crates/auru-pm-kernel/src/merge.rs:232-488 | a conflict is reported at a place if and only if look-ups reach it through containers of one kind in all three inputs, both sides differ there from each other and the ancestor, and the merge cannot go deeper |
| `Contested.CleanExactly` | crates/auru-pm-kernel/src/merge.rs:209-213 | the merge is clean if and only if there is no such place |
| `Contested.ReportedInOrder` | crates/auru-pm-kernel/src/merge.rs:251-268 | conflicts are reported in the order of keys, of positions and of the ancestor's elements |
| `OneSided.OneSidedEdit` | crates/auru-pm-kernel/src/merge.rs:203-214 | when one side is the ancestor the merge is clean, the same from either side, and gives the other side if and only if the edit is kept: no array without identity shortened, identity arrays in the merge's order |
| `OneSided.MergedIsEdited` | crates/auru-pm-kernel/src/merge.rs:232-461 | what becomes of an edit made on one side, whichever side that is, at any depth |
| `OneSided.OneSideNeverConflicts` | crates/auru-pm-kernel/src/merge.rs:473-477 | a side equal to the ancestor conflicts with nothing, arrays included |
| `OneSided.LocalUnchanged` | crates/auru-pm-kernel/src/merge.rs:315-318 | with an unchanged local side the result is the remote value if and only if the edit is kept, without a clash |
| `OneSided.RemoteUnchanged` | crates/auru-pm-kernel/src/merge.rs:311-314 | with an unchanged remote side the result is the local value if and only if the edit is kept, without a clash |
| `OneSided.ShortenedArrayIsPadded` | crates/auru-pm-kernel/src/merge.rs:448-457 | every shortened array without identity comes back as the edit followed by nulls |
| `OneSided.ReorderingIsUndone` | crates/auru-pm-kernel/src/merge.rs:386-420 | every reordering of an identity array comes back in the ancestor's order |
| `OneSided.NumbersEdited` | crates/auru-pm-kernel/src/merge.rs:441-461 | an edit of an array of numbers is kept if and only if it is not shorter |
| `Edits.MergedKeepsId` | crates/auru-pm-kernel/src/merge.rs:412-418 | merging three elements of one id yields an element of that id |
| `Edits.IdentityArrayOrder` | crates/auru-pm-kernel/src/merge.rs:372-439 | the ids of a merged identity array: surviving ancestors, local additions, remote additions |
| `Edits.IdentityArrayUnique` | crates/auru-pm-kernel/src/merge.rs:372-439 | ids unique in each input are unique in the result |
| `Edits.AncestorSurvival` | crates/auru-pm-kernel/src/merge.rs:386-420 | an ancestor's id survives exactly when both sides keep it or the only side keeping it changed it |
| `DisjointEdits.MergedElement` | crates/auru-pm-kernel/src/merge.rs:372-439 | which element of the merged array carries a given id, or that none does |
| `DisjointEdits.AddedElement` | crates/auru-pm-kernel/src/merge.rs:422-436 | an id both sides added carries the local element |
| `DisjointEdits.DisjointEdit` | crates/auru-pm-kernel/src/merge.rs:232-439 | at any depth along keys and ids, what only one side changed, added or removed is what the merge holds there |
| `Resolve.SetConflictedValue` | crates/auru-pm-kernel/src/merge.rs:118-200 | the descent along the parents and the change at the last segment amount to the recursive patch, with the same refusals |
| `Resolve.Descend` | crates/auru-pm-kernel/src/merge.rs:127-147 | the walk stops at the first segment that addresses nothing, or holds every value the change must be put back into |
| `Resolve.Rebuild` | crates/auru-pm-kernel/src/merge.rs:127-147 | each value passed holds the changed one in place of the old |
| `Resolve.ResolveConflicts` | crates/auru-pm-kernel/src/merge.rs:55-73 | choices are applied in turn and the first failure ends them; a wrong number is refused |
| `Patching.PatchExactly` | crates/auru-pm-kernel/src/merge.rs:118-200 | patching succeeds with a value if and only if that value has the addressed child replaced, or removed, and everything else as it was |
| `Patching.PatchRefused` | crates/auru-pm-kernel/src/merge.rs:127-198 | a patch is refused if and only if some segment leads nowhere, and the refusal names the first |
| `Patching.SetExactly` | crates/auru-pm-kernel/src/merge.rs:118-200 | the same of a printed path, by what it reads as; a path that reads as nothing is invalid and one of dots only is empty |
| `Patching.ResolvedExactly` | crates/auru-pm-kernel/src/merge.rs:55-73 | resolving succeeds if and only if the remote value can be set at each conflict it was chosen for, one after another; a wrong number of choices is refused |
| `Resolve.PatchTakesRemote` | crates/auru-pm-kernel/src/merge.rs:118-200 | patching the remote value in at a conflict equals merging with that conflict decided for remote |
| `Resolve.MergedIgnores` | crates/auru-pm-kernel/src/merge.rs:118-200 | deciding a conflict elsewhere changes nothing here |
| `Resolve.ChosenSideHeld` | crates/auru-pm-kernel/src/merge.rs:55-73 | at every conflict the resolved value holds the side chosen there |
| `Resolve.ResolveAnyList` | crates/auru-pm-kernel/src/merge.rs:67-71 | any list of the conflicts, in any order, resolves to the merge with the chosen ones decided for remote |
| `Resolve.EveryChoiceIsHonoured` | crates/auru-pm-kernel/src/merge.rs:55-73 | one choice per conflict always resolves, and every choice is what a look-up then finds |
| `Resolve.LocalEverywhere` | crates/auru-pm-kernel/src/merge.rs:52-54 | local choices leave the base unchanged |
| `Resolve.RootConflictIsRefused` | crates/auru-pm-kernel/src/merge.rs:124-126 | a conflict at a scalar root is reported with the empty path, which the resolver refuses |
| `Misread.UnsafeStrays` | crates/auru-pm-kernel/src/merge.rs:82-116 | an unsafe location's path reads as nothing, as the root, or as a place that is certainly another |
| `Misread.StrayPatch` | crates/auru-pm-kernel/src/merge.rs:118-200 | patching at such a place never gives what patching at the location itself does |
| `Misread.SafeLocationsExactly` | crates/auru-pm-kernel/src/merge.rs:118-200 | for every conflict of every merge, Remote gives the merge with that conflict decided for remote if and only if its location is safe |
| `Misread.ChoicesHonouredExactly` | crates/auru-pm-kernel/src/merge.rs:55-73 | every vector of choices is honoured if and only if every conflict's location is safe |
| `Misread.AddedKeyConflicts` | crates/auru-pm-kernel/src/merge.rs:329-338 | any key added differently on both sides is a conflict, safe or not |
| `RemoteWins.AddedBothWays` | crates/auru-pm-kernel/src/merge.rs:422-436 | the additions agree from both directions if and only if one side's are a prefix of the other's |
| `RemoteWins.TakingAllRemote` | crates/auru-pm-kernel/src/merge.rs:203-439 | deciding every conflict for remote equals the merge with sides exchanged if and only if additions agree, at every depth |
| `RemoteWins.RemoteEverywhere` | crates/auru-pm-kernel/src/merge.rs:55-73 | choosing Remote for every conflict succeeds with that merge if and only if additions agree |
| `RemoteWins.PrintableIsSafe` | crates/auru-pm-kernel/src/merge.rs:415-416 | inputs with safe keys, ids and array lengths only have conflicts whose paths read back |
| `FileTree.HashRestoreTree` | apps/auru-pm-ui/src/backend.rs:1372-1411 | succeeds exactly when everything can be read and no link occurs, listing every file with its hash in name order |
| `FileTree.ListingIsComplete` | apps/auru-pm-ui/src/backend.rs:1372-1411 | an expectation is in the listing if and only if the tree holds a file with that hash at that path |
| `FileTree.VerifyRestoreTree` | apps/auru-pm-ui/src/backend.rs:1413-1429 | succeeds exactly when every expected file can be read and has its expected hash |
| `FileTree.TreeVerifiesItself` | apps/auru-pm-ui/src/backend.rs:1372-1429 | a tree verifies against its own listing |
| `FileTree.PreservedVerifies` | apps/auru-pm-ui/src/backend.rs:1465-1470 | a tree that verifies still does after anything that keeps its files |
| `FileTree.CopyMissingEntries` | apps/auru-pm-ui/src/backend.rs:1505-1544 | in whatever order entries come: succeeds exactly when every step works and no link would be copied, and is then the overlay; even a failed copy leaves all that was restored |
| `FileTree.CopyEntry` | apps/auru-pm-ui/src/backend.rs:1506-1542 | what stands at one name afterwards: the kept entry, filled in if both are directories, or a copy |
| `FileTree.OverlayPreserves` | apps/auru-pm-ui/src/backend.rs:1512-1517 | the overlay keeps every restored file and directory |
| `FileTree.OverlayContents` | apps/auru-pm-ui/src/backend.rs:1505-1544 | at every path the overlay shows what was restored, else the old file or directory unless shadowed, else nothing |
| `TreeLaws.NoLinksExactly` | apps/auru-pm-ui/src/backend.rs:1387-1394 | a tree passes if and only if no path in it leads to a link |
| `TreeLaws.ReadableExactly` | apps/auru-pm-ui/src/backend.rs:1378-1403 | hashing goes through if and only if every path in the tree can be read |
| `TreeLaws.ListingInOrder` | apps/auru-pm-ui/src/backend.rs:1383-1403 | files are listed once each, in name order at every depth |
| `TreeLaws.CopyableExactly` | apps/auru-pm-ui/src/backend.rs:1505-1544 | the copy goes through if and only if every entry no restored file stands above can be inspected, and each of them with nothing in its place is no link and can be copied |
| `Restore.NumberedFit` | apps/auru-pm-ui/src/backend.rs:1322-1326 | finitely many names in a folder cannot use up the copy numbers |
| `Restore.FirstFree` | apps/auru-pm-ui/src/backend.rs:1488-1503 | the first numbered name that is free |
| `Restore.ResolveCollision` | apps/auru-pm-ui/src/backend.rs:1313-1346 | a free place is used as it is; a taken one is refused, avoided by the free copy with the lowest number, or replaced, as chosen |
| `Restore.Rollback` | apps/auru-pm-ui/src/backend.rs:1546-1555 | the old tree is put back, or stays in quarantine because one of the two renames failed; it is whole in between |
| `Restore.PublishNew` | apps/auru-pm-ui/src/backend.rs:1437-1445 | with nothing in the way: succeeds exactly when the rename works and the tree verifies, and otherwise moves the tree back |
| `Restore.FillAndVerify` | apps/auru-pm-ui/src/backend.rs:1465-1470 | succeeds exactly when the overlay can be copied and all expected files verify; the tree in place is then the overlay when overwriting, else the restored one |
| `Restore.FinishReplacement` | apps/auru-pm-ui/src/backend.rs:1465-1486 | the quarantine is dropped only after the installed tree, filled in when overwriting, verifies; otherwise the old tree is rolled back, or the failure names where it is |
| `Restore.MoveIn` | apps/auru-pm-ui/src/backend.rs:1460-1463 | a failed second rename is undone if possible, the old tree being whole at every step |
| `Restore.Install` | apps/auru-pm-ui/src/backend.rs:1457-1463 | both renames succeed, or the old tree is at its place, or in quarantine after a failed compensation |
| `Restore.Replace` | apps/auru-pm-ui/src/backend.rs:1457-1486 | succeeds exactly when every rename works and the tree can be completed and verified; the old tree is whole at every step until then; a failure names the step |
| `Restore.PublishVerifiedRestore` | apps/auru-pm-ui/src/backend.rs:1431-1486 | the same over all collision choices, with every failure accounted for and named; a folder that appeared meanwhile is not touched |
| `Restore.Stage` | apps/auru-pm-ui/src/backend.rs:867-904 | only the staging name changes; goes on exactly when staging, download, hashing and the missing-files rule allow, and a failure names which did not |
| `Restore.StagedVerifies` | apps/auru-pm-ui/src/backend.rs:885-912 | what was hashed in staging verifies wherever it is installed, so only reading and copying can fail |
| `Restore.RestoreInto` | apps/auru-pm-ui/src/backend.rs:867-916 | the steps in their order: missing referenced files leave an existing folder untouched; what is in place, counted and retained afterwards |
| `Restore.RestoreFromProvider` | apps/auru-pm-ui/src/backend.rs:842-917 | exactly when a restore succeeds; at every path the new folder then holds what was downloaded, or when overwriting else the old file or directory nothing restored shadows; no existing folder but the one to be replaced is ever touched, and that one is whole at every step or its compensating rename failed; each failure says which step it is about |
| `Xml.EscapeRoundTrip` | crates/auru-pm-kernel/src/project_format.rs:479-482 | unescaping an escaped text gives the text back |
| `Xml.IdentityIsFirst` | crates/auru-pm-kernel/src/project_format.rs:579-582 | the merge identity is the value of the first attribute in key order spelled id in any case |
| `Xml.AttributesRoundTrip` | crates/auru-pm-kernel/src/project_format.rs:561-578 | reading the attributes that were written gives the same map, without a duplicate |
| `Xml.Parse` | crates/auru-pm-kernel/src/project_format.rs:463-524 | the event loop over stack and root computes the specified reading, with its checks at the end |
| `Xml.ReadElement` | crates/auru-pm-kernel/src/project_format.rs:591-629 | in any open context, reading what was written for an element appends its rebuilt form and nothing else |
| `Xml.ReadContents` | crates/auru-pm-kernel/src/project_format.rs:607-624 | the same for a list of children, text runs joined |
| `Xml.WrittenReadsBack` | crates/auru-pm-kernel/src/project_format.rs:526-534 | every valid tree can be written and parsed; what comes back is its rebuilt form |
| `XmlGrammar.DecodesExactly` | crates/auru-pm-kernel/src/project_format.rs:479-482 | a raw text is decoded to a text if and only if it is that text, each special character by itself or as its named reference and no bare ampersand |
| `XmlGrammar.ParsedExactly` | crates/auru-pm-kernel/src/project_format.rs:463-524 | parsing succeeds with a tree if and only if the events are prologs, comments and blanks around one element of that tree, tags matching at every depth, attributes once each, and every name allowed |
| `XmlFidelity.RebuiltIsSame` | crates/auru-pm-kernel/src/project_format.rs:591-629 | the rebuilt form is the tree itself if and only if the tree is faithful |
| `XmlFidelity.XmlRoundTrip` | crates/auru-pm-kernel/src/project_format.rs:448-534 | writing then parsing gives the same tree if and only if ids follow attributes, texts are neither blank nor adjacent, no character data contains its terminator and comments hold nothing that is escaped |
| `XmlFidelity.CommentIsEscaped` | crates/auru-pm-kernel/src/project_format.rs:495-503 | an ampersand in a comment does not come back as one |
| `XmlFidelity.SectionsWhole` | crates/auru-pm-kernel/src/project_format.rs:613-617 | character data is written in sections that hold it whole, none of them holding the terminator |
| `XmlFidelity.PendingNext` | crates/auru-pm-kernel/src/project_format.rs:756-767 | popping the top and pushing its children in reverse leaves the rest of the document order pending |
| `XmlFidelity.Descendants.constructor` | crates/auru-pm-kernel/src/project_format.rs:743-745 | the iterator starts with the whole document order pending |
| `XmlFidelity.Descendants.Next` | crates/auru-pm-kernel/src/project_format.rs:756-767 | yields the first pending element and leaves the others pending; none exactly at the end |
| `XmlFidelity.Walk` | crates/auru-pm-kernel/src/project_format.rs:742-768 | running the iterator yields the recursive preorder, each element once, and ends |
| `XmlFidelity.PreorderIsWritten` | crates/auru-pm-kernel/src/project_format.rs:742-768 | that preorder is the order in which the opening tags stand in the document written of the tree |
| `Dawproject.EncodeDawproject` | crates/auru-pm-kernel/src/project_format.rs:863-941 | succeeds exactly on encodable archives, with the documents, the sorted resources and every resource's bytes |
| `Dawproject.CheckEntry` | crates/auru-pm-kernel/src/project_format.rs:887-905 | an entry is refused exactly for an unsafe path, a repeated one, or a size above 256 MiB for a document and 2 GiB for a resource, in this order |
| `ArchivePaths.SafePathExactly` | crates/auru-pm-kernel/src/project_format.rs:1090-1105 | a path is safe if and only if it is not empty, has no backslash, does not start with a slash or a lone dot, and has no part of two dots |
| `Dawproject.EncodeEntry` | crates/auru-pm-kernel/src/project_format.rs:880-927 | one entry: refused exactly when unsafe, repeated, too large or unreadable XML |
| `Dawproject.ReadEntries` | crates/auru-pm-kernel/src/project_format.rs:880-927 | the loop's variables say exactly what the entries hold; a refusal means the archive is not encodable |
| `Dawproject.OrderIgnored` | crates/auru-pm-kernel/src/project_format.rs:929-937 | archives with the same entries in different orders are both refused or yield the same snapshot and resources |
| `Dawproject.EncodedIsValid` | crates/auru-pm-kernel/src/project_format.rs:374-428 | an encoded snapshot passes validation, its resource ids strictly sorted and equal to the detached paths |
| `Dawproject.DecodeDawproject` | crates/auru-pm-kernel/src/project_format.rs:943-1025 | succeeds exactly when every resource has its bytes, with the recorded size and hash, at a safe and new path |
| `Dawproject.ReadResource` | crates/auru-pm-kernel/src/project_format.rs:971-1014 | one resource's bytes, detached before inline, exactly when the checks pass |
| `Dawproject.WriteResources` | crates/auru-pm-kernel/src/project_format.rs:971-1019 | the loop writes every resource in order or stops at the first that may not be written |
| `Dawproject.ArchivedExactly` | crates/auru-pm-kernel/src/project_format.rs:950-1019 | the decoded archive holds the rendered documents by name and behind them each resource by its id, detached bytes before inline ones |
| `Dawproject.DecodedHasEveryResource` | crates/auru-pm-kernel/src/project_format.rs:863-1025 | decoding what was encoded succeeds and holds every resource with its exact bytes, and nothing else beside the documents |
| `DawprojectXml.EncodedAgain` | crates/auru-pm-kernel/src/project_format.rs:863-1025 | encoding the decoded archive gives the same snapshot and resources if and only if each document is read back from what is written for it, within the limit |
| `DawprojectXml.DocumentStable` | crates/auru-pm-kernel/src/project_format.rs:448-534 | with documents written and read as XML, that is so if and only if the document is faithful and fits |
| `DawprojectXml.ArchiveRoundTrip` | crates/auru-pm-kernel/src/project_format.rs:863-1025 | an archive survives encode, decode and encode if and only if both its documents are faithful and fit |
| `AutomaticBackup.RevisionRoundTrip` | apps/auru-pm-ui/src/state.rs:32-49 | a time is stored exactly, unless it lies before the epoch, when it is not stored |
| `AutomaticBackup.PollExactly` | apps/auru-pm-ui/src/automatic_backup.rs:56-95 | a candidate is selected if and only if it is of a project linked, free, with an unattempted last save quiet for 300 seconds and newer than the backup or than an earlier attempt, and with the matching reason |
| `AutomaticBackup.CandidatesInOrder` | apps/auru-pm-ui/src/automatic_backup.rs:56-95 | the candidates come one for each ready observation, in the order of the observations |
| `AutomaticBackup.AttemptSilencesItsRevision` | apps/auru-pm-ui/src/automatic_backup.rs:71-77 | recording an attempt silences exactly the revision recorded |
| `AutomaticBackup.CollectedExactly` | apps/auru-pm-ui/src/automatic_backup.rs:36-42 | of several recorded revisions of a project the last one counts |
| `AutomaticBackup.AutomaticBackupScheduler.FromAttemptedRevisions` | apps/auru-pm-ui/src/automatic_backup.rs:36-42 | the recorded revisions, the last of several for one project winning |
| `AutomaticBackup.AutomaticBackupScheduler.RecordBackupAttempt` | apps/auru-pm-ui/src/automatic_backup.rs:45-54 | remembers the revision, if there is one, and changes no other project's |
| `AutomaticBackup.AutomaticBackupScheduler.Poll` | apps/auru-pm-ui/src/automatic_backup.rs:56-95 | the candidates are the due observations, in order |
| `BackupProtocol.EveryRunIsSafe` | apps/auru-pm-ui/src/main.rs:1533-1588 | in every run with crashes and restarts, an automatic publication is of the revision a poll found quiet for 300 seconds, recorded durably beforehand if there is a state file |
| `BackupProtocol.StepIsSafe` | apps/auru-pm-ui/src/main.rs:1457-1707 | every step of the protocol keeps that |
| `BackupProtocol.PrepareMoves` | apps/auru-pm-ui/src/main.rs:205-220 | an automatic start gets past preparation only with the revision it was selected for |
| `BackupProtocol.StepMoves` | apps/auru-pm-ui/src/main.rs:1533-1588 | a transfer that moves on keeps its start and, once prepared, its revision |
| `BackupProtocol.PollTransfers` | apps/auru-pm-ui/src/main.rs:1760-1822 | every transfer a poll begins carries a revision that poll selected |
| `BackupRules.PolledExactly` | apps/auru-pm-ui/src/main.rs:1760-1822 | a project that is not downloaded, syncing, upstream-ahead or conflicted keeps its status and begins nothing; any other takes its status and backup time from its files, and begins a transfer exactly when its last save has been quiet for 300 seconds, is not the one attempted, is newer than the backup or an earlier attempt, and has where to go |
| `BackupRules.BegunExactly` | apps/auru-pm-ui/src/model.rs:1301-1310 | a backup asked for by hand begins exactly from never backed up, not downloaded, local-ahead and upstream-ahead |
| `BackupRules.PreparedExactly` | apps/auru-pm-ui/src/main.rs:1509-1548 | a preparation that cannot be read, or reads another save than the one selected, ends the transfer; any other goes on with the save read |
| `BackupRules.RecordedExactly` | apps/auru-pm-ui/src/main.rs:1549-1578 | the attempt is in memory whatever happens, and the transfer goes on exactly when it is written or there is nowhere to write it |
| `BackupRules.UploadedExactly` | apps/auru-pm-ui/src/main.rs:1579-1599 | a committed upload publishes the recorded revision |
| `BackupRules.FinishedExactly` | apps/auru-pm-ui/src/main.rs:1590-1704 | a finished transfer leaves its project with the status and backup time found |
| `BackupRules.QuietSaveIsPublished` | apps/auru-pm-ui/src/main.rs:1457-1707 | from any state, a save found quiet can be prepared, recorded and uploaded, and is then published with the state file holding it |
| `BackupOnce.PollKeeps` | apps/auru-pm-ui/src/main.rs:1760-1822 | a poll selects only a save newer than anything recorded, so than anything published |
| `BackupOnce.RecordKeeps` | apps/auru-pm-ui/src/main.rs:1709-1720 | recording moves memory and state file forward together |
| `BackupOnce.RunKeeps` | apps/auru-pm-ui/src/main.rs:1533-1588 | the invariant of the whole machine over every orderly run |
| `BackupOnce.NeverTwice` | apps/auru-pm-ui/src/main.rs:1533-1588 | with saves moving forward, none before the epoch and a state file, no automatic publication repeats a revision of its project |
| `BackupTwice.RepeatsUnrecorded` | apps/auru-pm-ui/src/state.rs:182-187 | without a state file, or with a save older than the epoch, there is an orderly run that publishes a revision twice |
| `BackupTwice.NeverTwiceExactly` | apps/auru-pm-ui/src/state.rs:259-266 | with saves moving forward from an earliest time on, no run repeats a publication if and only if there is a state file and that time is not before the epoch |
| `BackupDriver.BackupAttempts` | apps/auru-pm-ui/src/state.rs:189-197 | the stored attempts handed to the scheduler are those that still stand for a time |
| `BackupRules.RestoredExactly` | apps/auru-pm-ui/src/state.rs:40-49 | a stored attempt stands for its seconds and nanoseconds, unless the nanoseconds are a second or more |
| `BackupDriver.Driver.constructor` | apps/auru-pm-ui/src/main.rs:679-680 | after a start the scheduler and the attempts are what the state file held |
| `BackupDriver.Driver.RecordBackupRevision` | apps/auru-pm-ui/src/main.rs:1709-1720 | the attempt is in memory whatever happens; success means the state file holds it too |
| `BackupDriver.Driver.SaveChecked` | apps/auru-pm-ui/src/state.rs:259-285 | the file holds the attempts or what it held before; nowhere to write counts as success |
| `BackupDriver.Driver.BeginTransfer` | apps/auru-pm-ui/src/model.rs:1301-1310 | a transfer begins only from a status that allows one, and then blocks the project |
| `BackupDriver.Driver.Refresh` | apps/auru-pm-ui/src/model.rs:1066-1085 | every project sees its file's new time; blocked ones keep their status |
| `BackupDriver.Driver.Observe` | apps/auru-pm-ui/src/main.rs:1773-1800 | the observations handed to the scheduler, project by project |
| `BackupDriver.Driver.StartCandidate` | apps/auru-pm-ui/src/main.rs:1802-1820 | a candidate's project is marked, and its transfer begun if its status and destination allow |
| `BackupDriver.Driver.StartAll` | apps/auru-pm-ui/src/main.rs:1802-1821 | starting all candidates in turn treats each project as if it were alone |
| `BackupDriver.Driver.PollAutomaticBackups` | apps/auru-pm-ui/src/main.rs:1760-1822 | the four loops of a poll do what the protocol's poll step says of each project, said also of the statuses, times and facts themselves |
| `BackupDriver.DueForEach` | apps/auru-pm-ui/src/main.rs:1773-1801 | each project is handed over at most once, exactly when it is due |
| `ClipDiff.StructuredDiff` | crates/auru-pm-kernel/src/diff.rs:530-719 | exactly the project's own changes in their order, the meter of the current snapshot, and the cards of added channels, of removed channels, and of matched channels that changed and have rows, in some order of visiting |
| `ClipDiff.DiffChannels` | crates/auru-pm-kernel/src/diff.rs:616-719 | the cards of the channels alone |
| `ClipDiff.ModifiedCard` | crates/auru-pm-kernel/src/diff.rs:697-712 | the card of a matched channel: its name, its clips, its mix, effects and instrument, in that order |
| `ClipDiff.PushFxRows` | crates/auru-pm-kernel/src/diff.rs:1108-1169 | a row for each plugin name the other chain lacks, and one for a reordering of the same names |
| `ClipDiff.PushClipRows` | crates/auru-pm-kernel/src/diff.rs:770-919 | a row and a count for each clip added or removed, and for each modified one its count and the rows of the seven parts compared |
| `ClipDiff.PushOneSided` | crates/auru-pm-kernel/src/diff.rs:791-820 | exactly the clips whose id the other side lacks, in order |
| `ClipDiff.PushModifiedClips` | crates/auru-pm-kernel/src/diff.rs:821-919 | every matched clip that differs is counted once, with a row per part both sides have and that differs, in whatever order clips are visited |
| `ClipRules.CardRowsExactly` | crates/auru-pm-kernel/src/diff.rs:691-919 | a row is on a matched channel's card if and only if a clip is on one side only, or a part of a matched clip or of the channel differs, with the old value first, the new one second and the present name |
| `ClipRules.CardCountsExactly` | crates/auru-pm-kernel/src/diff.rs:691-712 | what that card is called, and that it counts the clips only one side has and the ids whose clips differ |
| `ClipRules.CardInOrder` | crates/auru-pm-kernel/src/diff.rs:697-712 | the card tells the new name, clips that come, clips that go, changed clips, mix, effects and instrument in this order |
| `ClipCards.DiffExactly` | crates/auru-pm-kernel/src/diff.rs:616-719 | there is one card for each channel only one side has, with a row for each of its clips, and for each matched one that changed in a way there are words for; no other |
| `ClipDiff.ChangesShown` | crates/auru-pm-kernel/src/diff.rs:551-605 | the project's own changes are told if and only if the snapshots differ in them, the ancestor's value first, in a fixed order |
| `ClipTotals.ChangesCounted` | crates/auru-pm-kernel/src/diff.rs:821-829 | the modified count is the number of ids whose clips differ, whatever the order |
| `ClipTotals.ModifiedCounts` | crates/auru-pm-kernel/src/diff.rs:691-717 | what the card of a matched channel counts |
| `ClipTotals.DroppedExactly` | crates/auru-pm-kernel/src/diff.rs:713-716 | the card of a changed channel has no row if and only if no clip came or went and no compared part of it or of its clips differs |
| `ClipTotals.MatchedTotals` | crates/auru-pm-kernel/src/diff.rs:691-717 | dropping cards without rows drops no clip that came or went |
| `ClipTotals.ChannelConserves` | crates/auru-pm-kernel/src/diff.rs:770-820 | in a matched channel, clips added less removed is the change in its count |
| `ClipTotals.WeighAnyOrder` | crates/auru-pm-kernel/src/diff.rs:694-716 | a sum over channels does not depend on the order they are visited in |
| `ClipTotals.ClipConservation` | crates/auru-pm-kernel/src/diff.rs:508-524 | total clips added less total removed is the change in the number of clips |
| `ClipTotals.SameHasNoCards` | crates/auru-pm-kernel/src/diff.rs:521-523 | a snapshot has no difference from itself |
| `ClipTotals.NoCardsExactly` | crates/auru-pm-kernel/src/diff.rs:521-523 | there is no card if and only if both snapshots have the same channels and none has a change with words for it |
| `ClipTotals.ModifiedAccounted` | crates/auru-pm-kernel/src/diff.rs:515-517 | total clips modified is at most the number of matched clips that differ, and equal if and only if no channel holding one leaves an empty card |
| `ClipTotals.NoteEditIsDropped` | crates/auru-pm-kernel/src/diff.rs:821-829 | a clip changed only in what is not compared is counted nowhere, because its card is dropped |
| `BarBeat.Decomposed` | crates/auru-pm-kernel/src/diff.rs:367-377 | a position in beat units is whole bars and a remainder smaller than a bar |
| `BarBeat.PlaceIsNear` | crates/auru-pm-kernel/src/diff.rs:363-382 | beats lie in the bar, subbeats in 0 to 3, and the place is less than a quarter beat unit from the position |
| `BarBeat.PlaceExactly` | crates/auru-pm-kernel/src/diff.rs:363-382 | a place is that of a position if and only if its bars and beats are over by then and its subbeat is the nearest quarter of the beat, the last for what is nearer to the next beat |
| `BarBeat.PlacesInOrder` | crates/auru-pm-kernel/src/diff.rs:363-382 | a later position never reads as an earlier place |
| `Catalogue.Library.ReplaceProviderProjects` | apps/auru-pm-ui/src/model.rs:1546-1585 | the loops compute the specified reconciliation; the handle index never makes it skip a seed |
| `Catalogue.Library.KeepRetained` | apps/auru-pm-ui/src/model.rs:1551-1557 | rows that are local, without a remote or of another provider are kept, in order, and no others |
| `Catalogue.Library.CollectHandles` | apps/auru-pm-ui/src/model.rs:1558-1566 | the index holds exactly the handles of the rows |
| `Catalogue.HandlesOfSeed` | apps/auru-pm-ui/src/model.rs:1567-1581 | a seed's handle is in the index exactly when some row holds it, so the second `continue` is unreachable |
| `Catalogue.RowsKeepTheirPlace` | apps/auru-pm-ui/src/model.rs:1551-1578 | kept rows keep their place and everything but metadata and an unset location |
| `CatalogueRules.ReconciledExactly` | apps/auru-pm-ui/src/model.rs:1551-1583 | the result is the rows that are local, have no remote or another provider's, in their old order and changed in metadata and an unset location only, and behind them one row as its first seed says for each catalogue handle none of them holds, in the catalogue's order |
| `CatalogueRules.SeedsShown` | apps/auru-pm-ui/src/model.rs:1567-1578 | the last seed of a handle decides the metadata of the first row that holds it and gives it a location |
| `Catalogue.EverySeedRepresented` | apps/auru-pm-ui/src/model.rs:1567-1583 | every seed's handle ends up in some row |
| `Catalogue.NoHandleTwice` | apps/auru-pm-ui/src/model.rs:1579-1583 | at most one provider-only row per handle, and none beside another row holding it |
| `Catalogue.ReconcileIdempotent` | apps/auru-pm-ui/src/model.rs:1546-1585 | reconciling twice with the same seeds is reconciling once |
| `Canonical.SortJsonObjects` | crates/auru-pm-kernel/src/canonical.rs:58-73 | sorting yields the one canonical value of the input's meaning |
| `Canonical.CanonicalMeaning` | crates/auru-pm-kernel/src/canonical.rs:58-73 | sorting keeps the meaning |
| `Canonical.CanonicalOrdered` | crates/auru-pm-kernel/src/canonical.rs:58-73 | at every depth the keys are in order |
| `Canonical.SortingIsCanonical` | crates/auru-pm-kernel/src/canonical.rs:52-73 | sorted forms are equal if and only if the meanings are, and sorting is idempotent |

## Left out

- Error texts: a failure is a kind, with the path, name or count it is about.
- JSON text and numbers: numbers and strings are compared for equality only, so negative zero is not told from zero; `merge3_json_bytes` is not part of this model.
- `Resolve.SetConflictedValue`: the mutable reference that descends is a list of the values passed, rebuilt around the change; aliasing is not modelled.
- `Restore.PublishVerifiedRestore`: no other process changes the folder during the restore; the copy of missing entries appears in the folder's history as one change, after which a failed copy may have left anything new beside what was restored.
- `Restore.RestoreFromProvider`: the download is an input; creating the parent folder, a symbolic link at the destination's own name, the 32-bit limit of copy numbers and deriving names from paths are not modelled.
- `Restore.FinishReplacement`: a quarantine that could not be removed may have been removed in part.
- `XmlFidelity.XmlRoundTrip`: what the XML library writes for empty character data is left open, so such trees are excluded.
- XML tokenising: documents are event sequences; numeric character references, encodings and the size limit of a document belong to the tokeniser; white space and XML names are parameters.
- The element validation modelled with XML checks names by a parameter; malformed markup is the reader's own refusal.
- `BackupOnce.NeverTwice`: saves that move back in time are excluded; the exact condition on the epoch and the state file is `BackupTwice.NeverTwiceExactly`.
- Backup: the automatic-backup setting, library reload during a transfer, a state file that cannot be read, deleted projects, conflict uploads, rows without a local file and times beyond the range of the clock are not modelled; publication is one step.
- DAWproject: ZIP bytes, base64, the snapshot's JSON and path rules of Windows; parsing, rendering, hashing and validating are parameters, tied to the XML model in `DawprojectXml` but for how bytes become events.
- `ClipDiff.StructuredDiff`: native snapshots only; rows hold the compared values and not their wording, sorting the names of two effect chains to compare them is equality of multisets, and the kind shown for a channel is not modelled.
- `BarBeat.PlaceIsNear`: real numbers stand for floating point and 64-bit saturation.
- Catalogue: metadata, locations and everything shown of a project are opaque values.
- Canonical commit encoding (RFC 8785), hashing and byte output are not modelled.
- User interface, command line, accounts, providers, readers of Ableton and FL Studio projects, and foreign-function wrappers.
