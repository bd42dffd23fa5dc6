# ArtifactForge, modelled and proved in Dafny

ArtifactForge writes deterministic forensic artifacts and binds evidence about file trees to exact
bytes. This project models the parts of it whose correctness spans several functions or a whole run,
and proves what they promise. `dafny verify dfyconfig.toml` checks everything.

Unknown behaviour is an argument of the model, never a gap in it: other processes, the clock, a YARA
engine, Unicode normalisation and regular expressions are parameters or nondeterministic choices, and
the theorems quantify over all of them. Where the source changes state, so does the model: the hive
writer stores offsets on `Key` and `Val` objects, the tree walkers extend lists, files are created in
an inode table, the scan counts into a dictionary. Each such method is proved against a function or
predicate, and the theorems are about those.

## The parts

**Registry hives** (`Hive*.dfy`, `RunHive.dfy`, `WindowsPaths.dfy`). `build_hive` reserves an offset for every cell in one
traversal and emits the cells in another. `HiveLayout` has both passes as functions and proves that
they agree; `HiveWriter` has them as the source writes them, on mutable objects, and proves that the
result is the function `HiveImage.BuildHive`. `HiveReader` is a reader that knows only the format: it
follows offsets from the base block, checks every field that the format fixes, and shares no constant with
the writer. Reading back gives the whole input tree. `HiveMeaning` says without the writer's words which
trees are accepted and which time stamps a reader finds. `HiveTheorems` walks the
bin by its size fields, proves the writer injective, and says exactly which single-word changes the
base-block checksum misses.

**Tree snapshots under change** (`Snapshot*.dfy`). `_tree_inventory` reads a tree and then looks at
everything again. The world is an arbitrary history of inode tables and an arbitrary schedule of the
observer's system calls, restricted by two assumptions: a change to an inode gives it a stamp that the
inode never had (the assumption spelled out at `src/artifactforge/inventory.py:62-70`), and a scan of a
directory that holds still is exact. Whatever is returned is the tree as it stood at one instant
between the two passes, and at that instant every name, path and count in it was within the limits
(`SnapshotLimits`). Of a tree in which nobody changes anything during the call, whatever happens elsewhere,
the wanted files are returned exactly when everything in it is within the limits (`SnapshotComplete`).

**Paths, walkers, copies** (`RelativePaths`, `Disk`, `DiskMeaning`, `Walkers`, `DiskTree`,
`Materialize`, `Freeze`, `CapturedTree`, `Ancestry`). Canonical path sets; the two walkers of
`inventory.py`, which accept the same trees and list the same paths; writing a captured set into a
private directory, on case-sensitive and on case-folding filesystems; taking inventory of the copy;
making it read-only; climbing to the root along `..`.

**Bounded capture and scanning** (`Drain`, `VersionProbe`, `ScanErrors`, `ScanOutcome`, `ScanCorpus`,
`ScanFragment`). Two threads that share a byte budget, as a machine of their atomic steps; the nested
scan loops, whose effect on counter, errors and clock `ScanOutcome` gives as a function of an arbitrary corpus
and engine, and what that comes to while nothing disturbs the scan; the fragments the scanners assemble
against the checks the attestation makes of them.

**Encoders and checkers** (`Evidence`, `History`, `JsonBound`, `JsonPointer`, `Schema`,
`SchemaMeaning`, `SchemaAudit`, `JsonMeaning`). The length-delimited tree evidence and a decoder for it; Bash
history, whose writer and independent reader are inverse to each other; the explicit-stack bound on JSON
documents; the schema validator, and what each keyword asks of a value, one by one; the references it
follows, and what the audit of a schema document promises of them.

`Bytes`, `Unicode`, `TextOrder`, `TextSplit`, `Json` and `Wrappers` hold what these share: packed
integers, UTF-8 and UTF-16, Python's order on text, splitting and joining.

## What the proofs found

- `scripts/publish_rehearsal.py:490-506` looks at the overflow event before it looks at the readers
  and not again. For every budget there is a run in which the probe returns successfully with truncated
  output (`VersionProbe.TruncatedSuccess`). It looks at the failure event before the readers too: a read
  that raises between the two checks cuts the output anywhere, within the budget and with the overflow
  event clear, and the probe succeeds (`VersionProbe.RaisedSuccess`). A successful return is complete
  exactly when both streams were read to their ends and the overflow event is clear
  (`VersionProbe.SuccessIsComplete`), and without read errors exactly when they fit the budget together.
- The Windows runner looks at the overflow event after joining the threads, but never asks whether a read
  raised. What it returns is complete exactly when both streams were read to their ends
  (`Drain.SuccessIsComplete`), and any two beginnings of the streams that fit the budget are what some
  run returns as a success (`Drain.RaisedReadTruncates`).
- The checksum of the base block misses a one-word change exactly when it moves the XOR of the words
  between a reserved value and the value the reserved one is replaced by.
- A record that admits failures can record a corpus that has shrunk since it was bound and not one that
  has grown: a scan with nothing else against it is accepted as failed exactly when the corpus is the
  smaller of the two (`ScanFragment.OnlyShrunkIsRecorded`), and the producer returns such a fragment for
  every two sizes within the work budget (`ScanFragment.GrownCorpusUnrecorded`).
- A record that demands success accepts exactly the fragments that a clean run of the scanners can return,
  but for what it does not ask: that any rule file was selected, and that XProtect has one
  (`ScanFragment.StrictIsCleanRun`).
- Freezing opens every file again under each of its names. With a `file_mode` that takes the owner's read
  permission away, an ordinary user cannot freeze a tree in which a file has two names, although everything
  in it can be opened beforehand (`Freeze.SecondNameStops`); `Freeze.FreezeDirectory` has the exact condition.
- An audited schema document does not lead to audited schemas only. A `$ref` leaves what
  `_audit_supported_schema` visited exactly when its tokens, read from the root, step into a keyword that
  the audit does not look into (`title`, `const`, `$ref`, ...) or end at a `$defs` or `properties` object
  itself, and do not start at the document's `$id`: for every such reference there is a document that
  `_declared_schema` accepts in which it names an object that the audit refuses, and every other reference
  names an audited schema in every accepted document (`SchemaAudit.ReferenceAudited`). Among documents whose
  keyword values are all of the kinds the validator computes with, the unseen keywords that count are only
  `$schema`, `$ref`, `title`, `const` and a nested `$id`. Where no reference leads out, the validator stays
  among audited schemas, and it ends if `$ref` and `anyOf` do not go in circles
  (`SchemaAudit.SoundIsStratified`).
- Five checks can never decide: the file-and-directory test at `src/artifactforge/inventory.py:228`,
  the truncate-and-pad of the hive bin, the `PurePosixPath` comparison in `_absolute_program_path`, the
  `ntpath.normpath` comparison in `_windows_path` of the hive writer, and the second look at a command that is
  on the list of residents (`History.PermittedExactly`).

## Model

| member | source | states |
|---|---|---|
| `HiveFormat.PaddedTotal` | src/artifactforge/artifacts/hive.py:226-228 | a cell's total is the least multiple of 8 that holds its 4-byte size field and its data |
| `HiveReader.DecodeRegistryName` | src/artifactforge/artifacts/hive.py:191-203 | the ASCII and the UTF-16LE form of a name, with its compression flag, decode to the same text |
| `HiveLayout.ValueAgrees` | src/artifactforge/artifacts/hive.py:262-269 | a value's data and vk cells are emitted at the offsets reserved for them and fill the reserved length |
| `HiveLayout.KeyAgrees` | src/artifactforge/artifacts/hive.py:255-322 | if the second pass emits a key's cells where the first began, every nk, vk, data, value-list and subkey-list cell below lies at its reserved offset and the emitted length is the reserved one |
| `HiveLayout.KeysAgree` | src/artifactforge/artifacts/hive.py:271-273 | the same for all subkeys of a key, laid out one after another |
| `HiveImage.BinContents` | src/artifactforge/artifacts/hive.py:276-330 | in the finished bin every cell of the tree and the shared security cell are where pass one put them, and the cells are exactly as long as the running total |
| `HiveImage.BinIsExact` | src/artifactforge/artifacts/hive.py:324-330 | the free cell is absent or at least 8 bytes and the final truncate-and-pad changes nothing |
| `HiveImage.HiveRoundTrip` | src/artifactforge/artifacts/hive.py:231-347 | a reader that follows offsets from the base block, and checks on the way every field that REGF fixes (checksum, paddings, the bin's size, offset and FILETIME, flags, absent classes and volatile subkeys, name hints, a security cell of its own), recovers the whole tree: names, value types and bytes, inline DWORDs, per-key FILETIMEs by joined path, nesting and parent links |
| `HiveMeaning.TimesRecovered` | src/artifactforge/artifacts/hive.py:231-347 | a reader finds the hive's FILETIME in the base block and in the bin, and at every key the one given for its path from the root, or else the default one |
| `HiveMeaning.AcceptedExactly` | src/artifactforge/artifacts/hive.py:231-347 | which error comes of which input, in order: a file name that is empty, too long or no text; a key or value name that is empty, over 255 code units, not in NFC, or with a control character or lone surrogate; a time stamp for a path that no key has; else the file, or a number that does not fit its field |
| `HiveMeaning.SmallNeverStruct` | src/artifactforge/artifacts/hive.py:231-347 | and for a tree below two gigabytes with value types and counts within their fields every number fits |
| `HiveReader.ReadKeyAt` | src/artifactforge/artifacts/hive.py:293-319 | reading at a key's reserved offset gives that key's subtree with its timestamps, and on the way finds each child's parent offset, name hints, counts and the fields that are fixed as they must be |
| `HiveReader.ReadValueAt` | src/artifactforge/artifacts/hive.py:302-310 | reading at a value's reserved offset gives its name, type and bytes, inline or not |
| `HiveTheorems.CellsTileTheBin` | src/artifactforge/artifacts/hive.py:286-330 | a walk over size fields visits exactly the emitted cells, then the free cell if there is one, and ends at the end of a bin of whole pages |
| `HiveTheorems.HiveInjective` | src/artifactforge/artifacts/hive.py:231-347 | equal hives come from equal trees with equal timestamps of the hive and of every key, and from file names that differ in trailing U+0000 at most |
| `HiveTheorems.ChecksumDetectsOneWord` | src/artifactforge/artifacts/hive.py:341-346 | two headers that differ in one word have equal checksums exactly when the XOR is a reserved value and the change flips its lowest bit |
| `HiveWriter.PackInto` | src/artifactforge/artifacts/hive.py:332-340 | `struct.pack_into` overwrites exactly the packed octets of the buffer |
| `HiveWriter.FoldChecksum` | src/artifactforge/artifacts/hive.py:341-345 | the in-place loop computes the adjusted XOR of the 127 words |
| `HiveWriter.WriteBase` | src/artifactforge/artifacts/hive.py:332-347 | the buffer packed step by step is the base block of the image |
| `HiveWriter.HiveBuilder.Alloc` | src/artifactforge/artifacts/hive.py:246-250 | an allocation returns the current end and moves it by the padded total |
| `HiveWriter.HiveBuilder.Assign` | src/artifactforge/artifacts/hive.py:255-274 | the first pass, run on objects, stores on every key and value exactly the offsets, encoded names and FILETIME of the layout, collects the used override paths, and fails exactly when a name is invalid |
| `HiveWriter.HiveBuilder.AssignSubkeys` | src/artifactforge/artifacts/hive.py:271-273 | the loop over subkeys, which also stores each child's parent offset |
| `HiveWriter.HiveBuilder.Emit` | src/artifactforge/artifacts/hive.py:289-291 | one cell is appended, or the size does not fit its field |
| `HiveWriter.HiveBuilder.Write` | src/artifactforge/artifacts/hive.py:293-319 | the second pass appends exactly the cells of the laid-out key, and fails exactly when a field does not pack |
| `HiveWriter.HiveBuilder.WriteSubkeys` | src/artifactforge/artifacts/hive.py:313-314 | the loop over subkeys of the second pass |
| `HiveWriter.BuildHiveFile` | src/artifactforge/artifacts/hive.py:231-347 | the whole call on mutable objects returns what the function says, with the same error for the same cause |
| `HiveFits.SmallTreesAreBuilt` | src/artifactforge/artifacts/hive.py:231-347 | a tree below two gigabytes with value types and counts within their fields is refused exactly for a bad file name, a bad key or value name or an unknown timestamp path: no field fails to pack |
| `HiveFits.KeyPacksWhenSmall` | src/artifactforge/artifacts/hive.py:293-319 | every offset and size stored for such a tree fits its packed field, at every depth |
| `HiveTheorems.FieldRecovers` | src/artifactforge/artifacts/hive.py:241-244 | two file names fill the base block's name field alike only when they differ in trailing U+0000 at most |
| `WindowsPaths.NormalAlready` | src/artifactforge/artifacts/hive.py:164-170 | a drive-rooted path without empty or dot components is what `ntpath.normpath` makes of it |
| `WindowsPaths.BuiltIsAccepted` | src/artifactforge/artifacts/hive.py:151-188 | every path built of a drive letter and good components is accepted, and splits into these components; a component is good if it has at most 255 code units, none of `<>:"/\?*` or a bar, no dot or space at its end, and is no device name with or without an extension |
| `WindowsPaths.AcceptedIsBuilt` | src/artifactforge/artifacts/hive.py:151-188 | every accepted path is built that way |
| `RunHive.BuildRunHive` | src/artifactforge/artifacts/hive.py:355-394 | rows are written exactly when they are well formed, 1 to 64, unique under case folding, and no timestamp path is unknown; a reader of the hive finds exactly these rows, the synthetic marker beside them, and nothing else |
| `RunHive.RowsExactly` | src/artifactforge/artifacts/hive.py:355-390 | rows are well formed exactly when every name is a legal registry name, every path is that of a file on a drive in at most 260 code units without control characters, and no two names are the same but for case |
| `RunHive.RunImageShows` | src/artifactforge/artifacts/hive.py:350-394 | a reader finds a root with two subkeys: one leads on to `Microsoft\Windows\CurrentVersion\Run` with one text value for each row, the other is `artifactforge_synthetic` with the two texts of the disclosure; all other keys are empty, and the file name is that of the SOFTWARE hive |
| `RunHive.RunTreeIsBuilt` | src/artifactforge/artifacts/hive.py:391-394 | the tree around admitted rows always packs and its fixed names are always valid |
| `RunHive.RunRowsRecovered` | src/artifactforge/artifacts/hive.py:391-394 | following `Microsoft\Windows\CurrentVersion\Run` and decoding each text value gives the rows back in order |
| `Unicode.Utf16RoundTrip` | src/artifactforge/artifacts/hive.py:202-203 | strict UTF-16LE decodes to the text it encodes, surrogate pairs included |
| `SnapshotWorld.StampPins` | scripts/scanner_attestation.py:450-458 | two sightings of an inode with the same identity mean that it did not change in between |
| `SnapshotProof.SightingsHoldTogether` | scripts/scanner_attestation.py:687-727 | sightings that were each confirmed later all held at one instant between the passes |
| `SnapshotProof.HeldTreeReads` | scripts/scanner_attestation.py:549-651 | a sequential reader of the world at that instant reports exactly the captured files |
| `SnapshotCapture.SnapshotIsAtomic` | scripts/scanner_attestation.py:512-745 | first-pass sightings confirmed by the second pass are the tree at one instant |
| `SnapshotCapture.ScanIsExact` | scripts/scanner_attestation.py:652-682 | a directory whose identity is unchanged around a scan has exactly the scanned names |
| `SnapshotCapture.TreeInventory.ReadRegularFd` | scripts/scanner_attestation.py:461-497 | a chunked read between two equal identities returns the file's bytes at the first of them |
| `SnapshotCapture.TreeInventory.CaptureFile` | scripts/scanner_attestation.py:605-651 | a captured file is appended with the bytes it had when listed, its identity is recorded, and the byte and file budgets hold |
| `SnapshotCapture.TreeInventory.Walk` | scripts/scanner_attestation.py:549-683 | the first pass records every name and identity below a directory and captures the included files; every name and path was checked, and the members counted are all there are |
| `SnapshotCapture.TreeInventory.VerifyEndState` | scripts/scanner_attestation.py:687-727 | if the second pass succeeds, every sighting of the first is confirmed at a later instant |
| `SnapshotCapture.TreeInventory.Inventory` | scripts/scanner_attestation.py:512-745 | for every history and schedule, a returned list is the tree at one instant between start and end, within the byte, file and manifest limits; at that instant every name that leads from the root to anything at all is plain UTF-8 text, no dot name and without separators and control characters, every path has at most 32 names and 4096 octets, and there are at most 40000 of them; and of a tree in which nothing is changed throughout a window of time, every call inside the window returns the wanted files exactly when all that is so |
| `SnapshotLimits.CheckedIsWithin` | scripts/scanner_attestation.py:556-583 | a sighted tree whose names and paths were checked one by one and whose members were counted is within the limits in the world at the instant at which it holds: whatever can be reached from the root |
| `SnapshotLimits.GoodExactly` | scripts/scanner_attestation.py:429-447 | the check of an entry asks exactly for a plain name and the limits on depth and octets of its path |
| `SnapshotLimits.HeldPicture` | scripts/scanner_attestation.py:549-683 | a checked sighting of a tree that is still is a picture of it that fits the window |
| `SnapshotComplete.WithinIsChecked` | scripts/scanner_attestation.py:549-683 | whatever a sequential reader of one instant can read within the limits would have passed every check and count of the first pass |
| `SnapshotQuiet.StillScan` | scripts/scanner_attestation.py:556-567 | every scan inside a window throughout which a directory is still gives its sorted names |
| `SnapshotQuiet.WalkedHolds` | scripts/scanner_attestation.py:549-683 | what the first pass sighted inside the window, of a tree that is still there, is that tree |
| `SnapshotQuiet.QuietStep` | scripts/scanner_attestation.py:568-651 | a tree that fits the member, byte and file budgets fits them at every entry of the traversal |
| `RelativePaths.JoinSplit` | src/artifactforge/inventory.py:186-190 | joining the components of a path gives the path |
| `RelativePaths.AcceptedDescends` | src/artifactforge/inventory.py:176-191 | a path is accepted exactly when it is printable ASCII without backslashes and following its components from a root, with `.` staying and `..` leading up, goes one level down at every name |
| `RelativePaths.NeverOutside` | src/artifactforge/inventory.py:186-190 | wherever one stops on the way along an accepted path, one is below the root at the names followed so far |
| `RelativePaths.CanonicalRelativePaths` | src/artifactforge/inventory.py:194-233 | a collection is accepted exactly when its paths are valid, distinct, none is above another, no two prefixes differ only in case, and it is sorted if that is required; the result is the sorted arrangement |
| `RelativePaths.RecordPrefixes` | src/artifactforge/inventory.py:212-222 | the inner loop accepts a path exactly when no prefix differs from a known one only in case, and then the dictionary holds one spelling per folded prefix |
| `RelativePaths.RecordDirectories` | src/artifactforge/inventory.py:224-227 | the loop accepts exactly when no directory above the path is a known file, and adds exactly these directories |
| `RelativePaths.CanonicalPermutation` | src/artifactforge/inventory.py:205-233 | acceptance and result do not depend on the order of the input |
| `RelativePaths.EarlierNotBelow` | src/artifactforge/inventory.py:228-229 | in sorted order nothing earlier lies below a later path, so this test never fires |
| `RelativePaths.AncestorBefore` | src/artifactforge/inventory.py:205-205 | a directory sorts before everything below it |
| `Walkers.Lister.Visit` | src/artifactforge/inventory.py:314-398 | one directory is accepted exactly when its subtree is well formed and fits what is left of the bounds; the returned count is the number of files below |
| `Walkers.ListRegularFilePaths` | src/artifactforge/inventory.py:236-422 | the listing walker accepts exactly the acceptable trees and returns their sorted paths |
| `Walkers.Inventory.Visit` | src/artifactforge/inventory.py:519-640 | the capturing walker satisfies the same specification, with the bytes |
| `Walkers.InventoryRegularFiles` | src/artifactforge/inventory.py:425-678 | the capturing walker accepts exactly the trees the listing walker accepts and returns the captured files in the order of the same sorted paths |
| `DiskMeaning.VisitAccepts` | src/artifactforge/inventory.py:519-640 | a visit succeeds exactly when everything reachable by names is validly named, shallow enough, and a non-empty directory or a file within the bound |
| `DiskMeaning.VisitLists` | src/artifactforge/inventory.py:519-640 | a visit lists a file exactly when following its components from the root leads to a regular file with these bytes |
| `CapturedTree.VisitDistinct` | src/artifactforge/inventory.py:519-640 | on any filesystem with distinct entry names a visit lists no path twice |
| `Materialize.LookupStored` | src/artifactforge/inventory.py:1022-1064 | on the way down to a path that spells shared directories alike, case-folding lookup finds what exact lookup finds |
| `Materialize.FileSystem.Mkdir` | src/artifactforge/inventory.py:1025-1029 | a directory is made exactly when its parent may be searched and changed and lookup finds nothing under the name, empty and with the requested mode less the umask; otherwise nothing changes, and an existing name is told from a refusal |
| `Materialize.FileSystem.WriteAll` | src/artifactforge/inventory.py:1068-1072 | the write loop, with writes of any positive length, stores exactly the data |
| `Materialize.FileSystem.EnterDirectory` | src/artifactforge/inventory.py:1022-1054 | a parent is made or entered exactly when no stored file has its path, and the tree gains that directory and nothing else |
| `Materialize.FileSystem.WriteTarget` | src/artifactforge/inventory.py:1056-1083 | the target is written exactly when the path is absent, with its bytes and exact mode |
| `Materialize.FileSystem.ParentsUnchanged` | src/artifactforge/inventory.py:1085-1092 | in a private directory the closing check of the parents always passes |
| `Materialize.FileSystem.WriteRegularFileAt` | src/artifactforge/inventory.py:1003-1099 | a write succeeds exactly when the path is valid, the mode is a permission mask, and no stored file is above, at or below the path; then the tree holds the old files and this one |
| `DiskTree.ResolveAt` | src/artifactforge/inventory.py:1022-1054 | following names in a private tree is looking up the component sequence |
| `CapturedTree.NextFits` | src/artifactforge/inventory.py:205-233 | within a canonical set no path gets in the way of another and shared directories are spelled alike, so each next write meets its conditions |
| `CapturedTree.WriteFiles` | src/artifactforge/inventory.py:909-914 | writing every file of a canonical set into an empty private directory always succeeds, with or without case folding |
| `CapturedTree.StoredInventory` | src/artifactforge/inventory.py:425-678 | inventory of the written tree succeeds exactly under the bounds the set satisfies and finds exactly the files written |
| `CapturedTree.CapturedRegularTree` | src/artifactforge/inventory.py:891-917 | the private copy exists exactly when the source tree is acceptable, gives the same files on every further inventory, and holds nothing writable: everything in it has the mode 0o400 or, being a directory, 0o500, so that its owner can search and list every directory and read every file |
| `Freeze.FreezeDirectory` | src/artifactforge/inventory.py:700-750 | freezing succeeds exactly when neither mode grants write permission, everything below is a directory or regular file that the process may open, every directory with entries may be searched, and, should a file below have two names, the file mode lets it be opened again; names and bytes stay, only inodes with a name below change, and all of them get the requested mode |
| `Freeze.OpenStep` | src/artifactforge/inventory.py:711-740 | after the first entries have been frozen the next one opens exactly when it would have opened before and no file in it has lost its read permission under an earlier name |
| `Freeze.SecondNameStops` | src/artifactforge/inventory.py:732-740 | with a file mode without owner-read there is a readable tree of regular files that an ordinary user cannot freeze |
| `Freeze.FrozenIsReadOnly` | src/artifactforge/inventory.py:707-708 | after freezing no inode below has a write bit |
| `Ancestry.DirectoryAncestrySnapshot` | src/artifactforge/inventory.py:819-873 | the climb succeeds exactly when the chain of parents reaches a fixed point within the depth bound, returns the whole chain of distinct identities ending at the first root, and reports a cycle or an unreadable parent only if there is no root at any height |
| `Ancestry.CycleNeverEnds` | src/artifactforge/inventory.py:845-846 | a repeated identity means no ancestor at any height is its own parent |
| `Drain.Capture.Extend` | scripts/attest_windows_native.py:425-429 | the locked region on shared variables is the step of the machine |
| `Drain.StepKeeps` | scripts/attest_windows_native.py:418-434 | every atomic step keeps: the total is the smaller of the budget and the octets processed, and the overflow event is set or about to be exactly when more were processed than fit |
| `Drain.BudgetAlwaysHolds` | scripts/attest_windows_native.py:413-434 | in every state of every interleaving the buffers together fit the budget and each is a prefix of its own stream |
| `Drain.OverflowMeansDropped` | scripts/attest_windows_native.py:429-431 | the event is set only when octets were dropped |
| `Drain.SuccessIsComplete` | scripts/attest_windows_native.py:462-470 | whatever was raised, a successful return is what was read of each stream, and is both streams whole exactly when both were read to their ends |
| `Drain.QuietSuccess` | scripts/attest_windows_native.py:462-470 | when no read raised, the runner succeeds exactly when it did not time out, both threads ended and the streams fit the budget together, and then it returns both streams whole |
| `Drain.RaisedReadTruncates` | scripts/attest_windows_native.py:418-434 | for any two beginnings of the streams that fit the budget together, a run in which both reads raise returns them as a success |
| `Drain.RunsAreBounded` | scripts/attest_windows_native.py:419-434 | draining goes on after overflow and every run is bounded by the lengths of the streams |
| `Drain.LiveThreadsCanStep` | scripts/attest_windows_native.py:419-434 | a live thread can always take a step, so only finished threads end a run |
| `VersionProbe.BudgetAlwaysHolds` | scripts/publish_rehearsal.py:429-457 | in every interleaving of the readers and the supervising loop the budget holds and each buffer is a prefix of its stream |
| `VersionProbe.SuccessIsComplete` | scripts/publish_rehearsal.py:489-516 | a successful return is complete exactly when both streams were read to their ends and the overflow event is clear |
| `VersionProbe.SuccessLooked` | scripts/publish_rehearsal.py:489-509 | a run that succeeds has looked in turn at the overflow event, which was clear, at the failure event, which was clear, and at the readers, which were gone |
| `VersionProbe.RaisedSuccess` | scripts/publish_rehearsal.py:497-509 | for every output, every budget and every part of the output within it, a read that raises between the failure check and the liveness check makes a run that succeeds with that part, the failure event set and the overflow event clear |
| `VersionProbe.SuccessIsCompleteWhenItFits` | scripts/publish_rehearsal.py:489-516 | without read errors a successful return is complete exactly when both streams fit the budget together |
| `VersionProbe.TruncatedSuccess` | scripts/publish_rehearsal.py:490-506 | for every budget some run overruns it and still succeeds, with truncated output and the overflow event set |
| `ScanErrors.BoundedText` | scripts/scan_yara.py:82-86 | text stays within the limit, unchanged if it fits and with its beginning kept otherwise |
| `ScanErrors.Collect` | scripts/scan_yara.py:89-102 | whatever is appended, at most 256 entries remain, the marker is last when there are 256, and nothing is lost without a trace |
| `ScanErrors.ErrorList.Append` | scripts/scan_yara.py:89-102 | one append changes the list as specified and says whether there is room for more |
| `ScanErrors.MergeCollects` | scripts/scan_yara.py:105-111 | merging bounded lists gives what bounding everything at once would have given |
| `ScanErrors.MergeErrors` | scripts/scan_yara.py:105-111 | the merging loop, which stops early, computes the bounded concatenation |
| `ScanCorpus.TotalCounted` | scripts/scan_yara.py:335-336 | counting one more match adds one to the sum over all rules |
| `ScanCorpus.Scan.Callback` | scripts/scan_yara.py:324-337 | the callback goes on exactly for a valid name within both match caps, and then counts it; every count stays the number of times its name was reported and their sum the match total |
| `ScanCorpus.Scan.Match` | scripts/scan_yara.py:324-351 | names, caps met, bad names and what is raised are those of the engine's run, whether it heeds a request to stop at once, later or never |
| `ScanCorpus.Scan.MatchRule` | scripts/scan_yara.py:312-382 | counter, errors and clock after one rule file are the specified ones, and so is whether the scan ends there |
| `ScanCorpus.Scan.ScanFile` | scripts/scan_yara.py:278-384 | the same after one corpus file: an unreadable file leaves one error and the scan goes on; a file counts only if every loaded rule file left no error |
| `ScanCorpus.Scan.ScanAll` | scripts/scan_yara.py:259-385 | the same after the whole corpus, on every path; so only files are counted on which every loaded rule file ran to its end, the error list is empty exactly when that holds of all files, within both caps and in time, and a scan that nothing disturbs counts all that was reported on the readable files |
| `ScanOutcome.ScanUndisturbed` | scripts/scan_yara.py:259-385 | while the clock is in time, the caps hold and there is room for the errors, the names counted are all that the engine gets to report on the readable files, the errors are those of all files in order, and the files counted are exactly those that were read and run by every rule file to its end |
| `ScanOutcome.CleanExactly` | scripts/scan_yara.py:259-385 | there is no error exactly when every file is read, every loaded rule file runs to its end on it, the matches of the whole corpus are within both caps, and every reading of the clock comes before the deadline |
| `ScanOutcome.DoneWasDone` | scripts/scan_yara.py:302-384 | whatever disturbs a scan, no file is counted that some rule file did not run on to its end |
| `ScanOutcome.ListenUndisturbed` | scripts/scan_yara.py:324-337 | within the caps the engine gets to report the good names in front of the first bad one more than it ignores requests to stop |
| `ScanFragment.CommunityPaths` | scripts/scan_yara.py:556-567 | every discovered rule file is selected, or excluded with its reason, once and in order; the deprecated directory goes before the index name |
| `ScanFragment.Load` | scripts/scan_yara.py:114-129 | the errors are those of the files that do not compile, bounded, and the files loaded are those that compile as long as there is room for the errors before them; no errors exactly when every file compiles |
| `ScanFragment.LoadedRuleCount` | scripts/scan_yara.py:132-151 | the count never exceeds the limit, and is the number of rules exactly when no error is returned |
| `ScanFragment.Prepare` | scripts/scan_yara.py:476-522 | accounting, compilation and budgets before the scan: the first error tells of a corpus of another size than bound, and where there is no other error everything compiled and both work budgets hold |
| `ScanFragment.ScanRules` | scripts/scan_yara.py:442-687 | every fragment reports truthfully on the run that produced it: its counts and errors are those of the scan, or nothing if there was none, and its status is the one the validator recomputes; it has no error other than of the corpus size exactly when everything loads within the budgets and the scan goes through, and then it is the fragment computed from what was scanned |
| `ScanFragment.UndisturbedCounts` | scripts/scan_yara.py:442-687 | in a fragment of a scan that nothing disturbed, the files counted are exactly those that every loaded rule file ran on to its end, the counter tallies all names reported on readable files, and the errors are those of rejected rule files and of all other corpus files, as far as there is room |
| `ScanFragment.ValidateSummary` | scripts/scanner_attestation.py:1732-1754 | the loop accepts exactly positive counts under non-blank names that add up to the match total |
| `ScanFragment.StrictAcceptance` | scripts/scanner_attestation.py:1767-1901 | a record demanding success accepts a produced fragment exactly when its control passed, it has no errors, some rule was loaded and nothing matched |
| `ScanFragment.StrictIsCleanRun` | scripts/scanner_attestation.py:1767-1901 | apart from the number of rule files, a record demanding success accepts exactly those fragments that some clean run of the producer over the bound corpus returns |
| `ScanFragment.LenientAcceptance` | scripts/scanner_attestation.py:1828-1901 | with non-blank rule names, a record admitting failures accepts a failed fragment exactly when it scanned no more files than are bound, and any other exactly when some rule was loaded |
| `ScanFragment.OnlyShrunkIsRecorded` | scripts/scanner_attestation.py:1828-1901 | a scan whose one error is the corpus size covered the corpus, is failed, and is accepted by a record admitting failures exactly when the corpus is smaller than bound |
| `ScanFragment.GrownCorpusUnrecorded` | scripts/scan_yara.py:466-477 | for every two sizes within the work budget there is a scan that goes through, and the fragment returned of it can be recorded exactly when the corpus has not grown: a grown one not even as a failure |
| `ScanFragment.ThroughButMiscounted` | scripts/scanner_attestation.py:1828-1901 | the same of every scan that goes through over a corpus of another size than bound |
| `ScanFragment.UnavailableIsNeverGreen` | scripts/scan_yara.py:690-752 | an unavailable scanner is accepted as a failure and never as a success |
| `Evidence.FieldSplits` | scripts/check_python_support.py:431-433 | a length-delimited field shows where it ends, whatever follows |
| `Evidence.StreamDecodes` | scripts/check_python_support.py:604-616 | equal octet streams come from equal lists of kind, path, mode, size and digest |
| `Evidence.StreamIsTheSet` | scripts/check_python_support.py:599-616 | two trees feed the digest the same octets exactly when they have the same set of entries, in whatever order they were visited |
| `Evidence.SortedKeys` | scripts/check_python_support.py:599-599 | sorting entries sorts their keys |
| `Evidence.KeyOrderIsTextOrder` | scripts/check_python_support.py:599-599 | sorting by UTF-8 octets is sorting by code point |
| `Evidence.Digest.AddEntry` | scripts/check_python_support.py:604-616 | the fields of an entry are fed in order, with size and digest for files only |
| `Evidence.DigestTree` | scripts/check_python_support.py:599-616 | the loop feeds exactly the specified stream and counts every entry as file or directory |
| `Evidence.StreamIsRead` | scripts/check_python_support.py:599-616 | a decoder that follows the source's order of fields reads the schema name and then, for each entry in the order of encoded paths, one record of its kind, path, mode and, for files, size and digest, and nothing is left |
| `History.PermittedIsLine` | src/artifactforge/artifacts/linux.py:162-174 | a permitted command is one printable line and does not begin with `#` |
| `History.AlreadyNormal` | src/artifactforge/artifacts/linux.py:116-131 | the component checks imply the normalisation check |
| `History.PathExactly` | src/artifactforge/artifacts/linux.py:106-135 | a program path is accepted exactly when it is built of names, each behind a slash, of letters, digits and `._+@-`, none of them a dot name, in at most 1024 characters |
| `History.SafeExactly` | src/artifactforge/artifacts/linux.py:138-143 | and a resident one exactly when what follows its last slash is, in lower case, no dangerous name and does not begin with `mkfs.` |
| `History.MarkerExactly` | src/artifactforge/artifacts/linux.py:162-170 | the marker form is the fixed start, a token of 1 to 64 characters and a quote |
| `History.PermittedExactly` | src/artifactforge/artifacts/linux.py:162-174 | with an admitted list a command is permitted exactly when it has the marker form or is on the list |
| `History.FromDecimalOf` | src/artifactforge/artifacts/linux.py:240-240 | a decimal epoch reads back as the number |
| `History.BuildBashHistory` | src/artifactforge/artifacts/linux.py:208-246 | rows are accepted exactly when the resident list, counts, increasing epochs, commands and sizes are in order, and the bytes are the specified ones |
| `History.AcceptedExactly` | src/artifactforge/artifacts/linux.py:208-246 | what is accepted, in full: 1 to 128 different resident programs; 1 to 1024 rows with strictly increasing times from 1 to below 2^63; every command a resident or a marker of at most 4096 characters; at most one mebibyte |
| `History.WrittenIsRead` | src/artifactforge/gates/oracles/bash_history_subset.py:162-215 | the independent reader returns exactly the rows that were written |
| `History.ReadIsWritten` | src/artifactforge/gates/oracles/bash_history_subset.py:162-215 | whatever the independent reader accepts is byte for byte what the writer emits for the rows it read |
| `History.ReaderInvertsWriter` | src/artifactforge/artifacts/linux.py:208-246 | bytes are read as some rows exactly when the writer emits these bytes for them, so the writer is injective |
| `History.WrittenIsHarmless` | src/artifactforge/artifacts/linux.py:162-240 | every line of a written file is a comment, a null command with one quoted word, or a listed absolute path of plain characters whose program is no dangerous one in any spelling |
| `History.RowsEach` | src/artifactforge/artifacts/linux.py:227-240 | accepted epochs are strictly increasing over the whole file |
| `JsonBound.BoundJsonStructure` | scripts/validate_cyclonedx.py:312-336 | the worklist ends, and accepts exactly documents with at most 250000 values and 128 levels and no surrogate in any key or string, whichever pending value is taken next |
| `JsonBound.ReplaceKeeps` | scripts/validate_cyclonedx.py:316-332 | taking out any pending value and putting in its children keeps the count and what is left to check |
| `JsonPointer.DecodeEncode` | scripts/scanner_attestation.py:198-198 | the two replacements, in the order of section 4 of RFC 6901, recover every name from its escaped form of section 3, names that contain `~0`, `~1` or `/` included |
| `JsonPointer.PassOrderMatters` | scripts/scanner_attestation.py:198-198 | with the replacements in the other order the name `~1` is lost |
| `JsonPointer.PointerResolves` | scripts/scanner_attestation.py:193-204 | a reference built from member names resolves to the object they lead to, whatever the names contain |
| `Schema.ValidateNode` | scripts/scanner_attestation.py:207-297 | when `$ref` and `anyOf` steps are acyclic the validator ends, by value depth and then schema rank, and accepts exactly the values that satisfy every supported keyword |
| `Schema.TryEach` | scripts/scanner_attestation.py:214-228 | the loop over alternatives accepts exactly when one of them does |
| `Schema.ValidateMembers` | scripts/scanner_attestation.py:276-288 | every member satisfies its own schema, or the one for additional members, or none applies and none is forbidden |
| `SchemaMeaning.SatisfiesIsConjunction` | scripts/scanner_attestation.py:207-297 | a value is accepted exactly when it meets every member of the schema, each read off its name and value: references and alternatives, constants and listed values, kinds, lengths, patterns and time stamps, counts, required names, rules for declared, undeclared and all names, and numeric limits |
| `SchemaMeaning.NothingUndeclared` | scripts/scanner_attestation.py:276-288 | under `additionalProperties: false` an accepted object has only members that `properties` declares |
| `JsonPointer.ResolveFollows` | scripts/scanner_attestation.py:193-204 | a reference resolves to an object exactly when it starts with `#/` and the names it decodes to lead there from the root |
| `JsonMeaning.EqualMeansSame` | scripts/scanner_attestation.py:166-178 | on documents without repeated names, `_json_equal` holds exactly when both mean the same value, objects being maps: so it is an equivalence, tells types apart and ignores the order of members |
| `JsonMeaning.MemberOrderIrrelevant` | scripts/scanner_attestation.py:170-173 | an object with its members rearranged is equal |
| `SchemaAudit.AcyclicIsStratified` | scripts/scanner_attestation.py:207-228 | a closed set of schemas in which no `$ref` or `anyOf` path returns to its start has the ranking the validator needs to end |
| `SchemaAudit.StratifiedIsAcyclic` | scripts/scanner_attestation.py:207-228 | and only such a set has one |
| `SchemaAudit.RankIrrelevant` | scripts/scanner_attestation.py:207-297 | what satisfies a schema does not depend on the ranking |
| `SchemaAudit.AuditIsLocal` | scripts/scanner_attestation.py:300-375 | a schema is accepted exactly when every schema the audit visits is an object whose members have supported names, supported formats and types, and values of the kinds that are looked into |
| `SchemaAudit.AuditCoversSteps` | scripts/scanner_attestation.py:300-375 | every step of the validator except `$ref` leads to a schema that the audit visits, and it has accepted all of these |
| `SchemaAudit.PositionStaysAudited` | scripts/scanner_attestation.py:193-204 | a reference whose names step from schema to schema leads from an audited root to a schema that the audit visited and accepted |
| `SchemaAudit.PositionOrEscapes` | scripts/scanner_attestation.py:193-204 | in an audited document every reference that resolves is in position or escapes, in the narrower sense if its schemas are typed |
| `SchemaAudit.EscapeLeavesAudit` | scripts/scanner_attestation.py:300-375 | for every reference that leads out there is an accepted document, with its `$id`, without repeated names and typed if its names allow it, that has this reference in a schema the audit visits, and it names an object the audit refuses |
| `SchemaAudit.ReferenceAudited` | scripts/scanner_attestation.py:193-204 | a reference names an audited schema in every accepted document, and in every accepted and typed one, exactly when it does not lead out; and if it resolves in one of them, exactly when it is in position |
| `SchemaAudit.PositionsDoNotEscape` | scripts/scanner_attestation.py:300-375 | no names are both in position and escaping |
| `SchemaAudit.AuditedIsClosed` | scripts/scanner_attestation.py:378-396 | from an accepted, typed document in which no reference leads out the validator reaches only schemas that the audit visited |
| `SchemaAudit.SoundIsStratified` | scripts/scanner_attestation.py:378-396 | if besides no `$ref` or `anyOf` path returns to its start, the document has a ranking that ranks it |
| `SchemaAudit.ValidateDeclared` | scripts/scanner_attestation.py:393-396 | then validation against the document ends, and its verdict is the meaning of the schema under every ranking |

## Left out

- `build_amcache_hive`: row validation and one more fixed tree shape around the same writer.
- Unicode NFC (of which only that ASCII text is normal is used), case folding and upper-casing are parameters of `RunHive`; case folding of artifact paths is modelled exactly, since these are printable ASCII.
- HiveWriter.BuildHiveFile: requires a tree without shared `Key` or `Val` objects, because the first pass stores offsets on the objects.
- RunHive.BuildRunHive: builds the key tree as a value; the object writer is proved equal to the function it calls.
- SnapshotCapture.TreeInventory.Inventory: the size of the rendered manifest is a parameter; what is said of a refused tree is only that it was changed during the call or is outside some limit.
- Files that `_tree_inventory` also writes to a private snapshot directory, file names that are not valid UTF-8, and operating-system errors other than as aborts.
- Walkers.ListRegularFilePaths: the walkers run on an unchanging, readable tree, so their identity re-checks always pass and are not modelled; changing trees are the subject of the snapshot part.
- Materialize.FileSystem.WriteRegularFileAt: on a case-folding filesystem it assumes paths that spell shared directories alike, which `canonical_relative_paths` guarantees for a captured set.
- Freeze.FreezeDirectory: the process owns the inodes of the tree, so only the owner's permission bits decide, and none if it is privileged.
- Clearing and removing private directories, renaming without replacement, fsync, and platform-specific stat domains: system calls without an algorithm.
- Drain.SuccessIsComplete: killing the process group shortens the streams; a stream is what the pipe delivers before end of file.
- VersionProbe.SuccessIsCompleteWhenItFits: starting the readers, terminating the process tree and reaping it are not modelled; after success they change nothing.
- ScanFragment.ScanRules: control inputs and their digests, rule manifests beyond their file count, descriptive texts and timestamps; whether a control passed is an input. Exact texts of error messages are abbreviated.
- ScanCorpus.Scan.ScanAll: bytes of corpus files and the externals passed to the engine do not matter to the accounting and are part of the arbitrary engine.
- Evidence.StreamIsTheSet: the walk of `fixture_tree_evidence` that collects the entries; the stream is about what it recorded, and nothing is claimed of SHA-256.
- Schema.ValidateNode: numbers are integers, keyword values have the kinds the validator computes with (limits are numbers, `required` lists texts), regular expressions and time stamps are parameters. The audit does not check these kinds, so `SchemaAudit.Sound` assumes them. The limit on the size of the schema file is not modelled.
- `build_desktop_entry`, `windows.py`, `ef_seeds.py`, `model.py`, report-shape validators, native attestation of platform tools, publication commands and command lines: straight-line checks and text around foreign programs.
