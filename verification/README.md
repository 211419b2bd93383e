# Evidence Workbench: verified model

Evidence Workbench is a fail-closed evidence store: what was planned, captured and recorded must be exactly what is
read back later. This project models the parts of the crate that make this promise non-trivial (concurrent protocols,
binary formats, worklist algorithms, cross-checks and validators that must agree with separate producers) and proves
it. `dafny verify dfyconfig.toml` checks everything.

## The parts

**Content-addressed store** (`ContentStore`, `StoreSafety`, `StoreReadable`, `StoreRefinement`, `StoreQuietRuns`,
`StoreLoads`, `StoreUnlinkFault`, `ImportCode`). Importers and loaders are processes of a step system in which every
file-system call is one step: a map from names to inodes, a map from inodes to bytes, link counts as numbers of names,
open handles that outlive their names. A run is any sequence of events, so processes interleave freely and may stop
anywhere. `StoreSafety` holds whatever fails: a published name denotes one complete, immutable file. So does
`StoreReadable`: a file that a reader accepts stays. `StoreRefinement` assumes that the unlink of a published source
succeeds: the disk then refines an append-only map from artifact ids to descriptors and bytes, and success is permanent.
`StoreQuietRuns` and `StoreLoads` state success and loads run by run: of all unlinks only those behind the object name
of the digest matter, and only until the import has returned. `StoreUnlinkFault` proves that exactly these matter, by a
concrete race for every identifier and digest. `ImportCode` writes the source's methods as imperative code whose every
call is a step with arbitrary interference before it; alone and without faults an import succeeds exactly if its capture
contract holds, its identifier is free and its object is new or there under a single link with the imported length.

**Plan execution** (`PlanExecution`, `ExecutionInput`). The lock file and the private execution root as a step system,
what an execution alone does from any state of it, and the loops of `read_verified_file` and
`materialize_artifact_execution_input` with faults and rollback.

**EWBTREE1 archives** (`Utf8`, `TreeArchive`, `PathResolution`, `TreeArchiveCode`, `TreeMaterialisation`, `TreeRehash`).
Writer, parser, extractor, directory walk and re-hasher of the length-framed archive, why they agree, and what a
directory whose re-hash is the planned identity must hold. `PathResolution` says which names are accepted by what a file
system makes of them: those that lead to their own place below the root.

**Audit topology** (`PredecessorGraph`, `AuditTopology`, `AuditReceipt`). Kahn's algorithm with its in-degree map,
successor lists and ordered worklist, and what a receipt accepted against a topology records of it.

**PE32+ imports** (`PeImage`, `PeParser`). A declarative reading of the Microsoft PE Format with its names compared
without ASCII case, and the parser over untrusted bytes.

**Python admissions** (`Base64Url`, `Decimal`, `WheelRecord`, `WheelClosure`, `WheelRecordLaws`, `AdmissionPayload`,
`AdmissionValidation`, `AdmissionRegistry`, `AdmissionTermination`, `AdmissionOperations`, `AdmissionRuns`). The
base64url encoder, the RECORD parser, the wheel closure as equality of finite maps and row by row, and the three-version
admission chain with its recursive verification, with the exact condition under which it ends. `AdmissionRuns` traces
what a record of any version says of the five implementable checks to the proofs of the admission it goes back to.

**Native results and parameters** (`NativeText`, `NativeObservations`, `NativeAgreement`, `Parameters`). Producer and
validator of native observations, and normalisation of parameters as a fixed point.

**Plans, runs, handoffs** (`Descriptors`, `RecordPublication`, `Workspace`, `WorkspaceCode`, `RunLaws`, `StoreBridge`,
`StoreReads`, `StoreReadFault`, `Handoffs`). `RecordPublication` is the protocol that writes all other records, as a
step system. `Workspace` says what it is for plans and runs to be valid against a store: objects, artifact records,
registries and staged executables; tool snapshots, qualifications and whole admission chains with their inventories and
capsules are read from it again at every load. `WorkspaceCode` is the code that decides it, and `RunLaws` proves that a
run which loads is kept on disk with everything it reports, and that a run which an execution records loads.
`StoreBridge` derives that store from the disks of the two protocols and proves that it holds exactly what was written
and only grows, whichever calls fail. `StoreReads` shows that what an import leaves and what a load returns is in it,
unless an unlink behind its own record or object name fails, and `StoreReadFault` that exactly these unlinks matter.
`Handoffs` puts this together: what a verified handoff is evidence of, and that it stays verified on disk.

## Conventions

SHA-256, JSON serialisation and date parsing are function parameters, so every theorem holds for all of them; freedom
from collisions is a hypothesis only where it is stated. Identifiers, clocks, I/O faults and the outcome of foreign
proofs are parameters or arbitrary choices. A Rust `str` is a Dafny `string` of Unicode scalar values, a byte is an
integer below 256, and u16, u32, u64 and (64-bit) usize are subset types, so their bounds are proof obligations.
`anyhow` errors are `None` or `Err`; their texts are not modelled.
`Text` holds the character classes, trimming, splitting and the forms of identifiers and digests that all records use.

## Where the code and its promises part

- Opening an existing object and checking its link count are two calls (`src/workspace.rs:1431-1436`). If the unlink
  behind an object name can fail, a rollback between them lets an import succeed without its object being stored
  (`SuccessWithoutObject`); if the unlink behind its record or its object name can fail, a load can return an artifact
  that the store does not hold (`LoadWithoutRecord`, `LoadWithoutObject`). Both are exact: `SuccessKeepsObjectIff` and
  `LoadsReadTheStoreIff` hold for every set of names behind which unlinks may fail.
- What the store shows at one moment it shows for ever, failing unlinks included, because a rollback removes a name
  only while its file has two links and is unreadable: `StoreOnlyGrows`. So a handoff that verifies against what the
  store shows keeps verifying (`VerificationStaysOnDisk`, `CreatedKeepsVerifying`). That the reads of `create` and
  `verify` saw what the store shows is `LoadedIsInTheStore`, which needs the unlinks behind the names they read.
- A stored parameter map revalidates exactly if the defaults it was filled with satisfy their own contracts and have
  names without an equals sign: `RevalidatesIff`, with `BadDefaultIsRecorded` as the failing input.
- Verification of an admission recurses before it compares the cited version (`src/python_admissions.rs:1355`). In any
  registry it ends if and only if the citations from the record never come back to a record (`EndsIffNoRevisit`), and
  then within one nested call more than there are records; `SelfCitationNeverEnds` is a failing input. In every
  registry that the operations can reach it ends within three calls (`ReachableRecordsVerify`).
- An accepted list of native observations is a permutation of what extraction yields if and only if the manifest's
  observation contracts have distinct identities (`AcceptedIsExtractionIff`); manifest validation does not demand
  that, and `DuplicateContractsAdmitForgery` is a failing input.
- `hash_materialized_tree` writes backslashes as slashes. Where a file name may hold a backslash, a directory can
  re-hash as an archive whose file it does not hold (`BackslashGoesUnseen`); `VerifyMaterialized` and
  `RecordedIsHeldIff` say exactly when. Plans are executed on Windows alone (`src/run_validation.rs:138-142`), where no
  file name holds a backslash, so this input reaches the function and no supported run.
- An import does not check that capture mode and origin agree, a load does: `LoadReturnsTheImport` says that this is
  the only thing a load refuses.

## Model

| member | source | states |
|---|---|---|
| StoreSafety.InvRun | src/workspace.rs:1566-1718 | every interleaving of importers and loaders, with failing calls, rollbacks and retries, keeps the store invariant |
| StoreSafety.ObjectNamesDenoteTheirContent | src/workspace.rs:1566-1633 | in every run an object name denotes a completely written file of some import, hashing to the digest in the name, that nobody may write again |
| StoreSafety.PublishedForever | src/workspace.rs:1656-1705 | a published file never changes in any continuation, even after its name was removed |
| StoreSafety.NoPartialObjectIsRead | src/workspace.rs:1442-1518 | what a loser or a loader has read so far is a prefix of a complete import with the expected digest |
| StoreSafety.LoadedIsRecorded | src/workspace.rs:573-588 | even with failing unlinks, loaded bytes match digest and length of a descriptor that an import recorded under that id |
| StoreSafety.WinnerIsUniqueAndStays | src/workspace.rs:1566-1601 | at most one import wins a digest, and its object keeps that name and a single link in every continuation |
| StoreSafety.NamesOfInode | src/workspace.rs:1685-1705 | an inode has no names but its creator's temporary name and destination |
| StoreSafety.SingleName | src/workspace.rs:1431-1436 | the link count of a published file is one exactly when its temporary name is gone |
| StoreRefinement.StoreIsAppendOnly | src/workspace.rs:432-571 | with reliable unlinks the next step of any run leaves the map from ids to (descriptor, bytes) alone or adds the actor's own entry under a free id |
| StoreRefinement.SuccessMeans | src/workspace.rs:432-508 | an import that returned success published its record and left no temporary file; with reliable unlinks object and record are stored |
| StoreRefinement.SuccessIsPermanent | src/workspace.rs:1566-1633 | whoever returned success, winner or loser, has its object and record present, unchanged and single-linked in every continuation |
| StoreLoads.LoadReturnsTheImport | src/workspace.rs:573-588 | a load begun after a successful import gives back exactly that descriptor and those bytes, or refuses only for a capture mode that disagrees with the origin, unless an unlink behind the object name failed before the import returned |
| StoreLoads.LoadCanFinish | src/workspace.rs:698-728 | from any point of such a load a fault-free continuation ends it with that result |
| Descriptors.ValidateCaptureContract | src/workspace.rs:1118-1148 | the import check accepts exactly distinct well-formed roles, a trimmed media type, a known origin and a known capture mode |
| Descriptors.ValidateDescriptor | src/run_validation.rs:343-379 | the load check demands in addition the capture mode of the origin |
| Descriptors.ValidRoleIff | src/workspace.rs:1128-1137 | a role is 1 to 64 characters from the small letters, the digits and the underscore |
| Text.PrefixedIdIff | src/workspace.rs:1224-1236 | an identifier is its prefix and the lower-case hexadecimal text of 16 bytes |
| Text.Sha256Iff | src/workspace.rs:1238-1246 | a digest text is the lower-case hexadecimal text of 32 bytes |
| Text.TrimMeans | src/workspace.rs:1138-1140 | trimming takes white space off both ends and leaves a text that neither begins nor ends with it |
| StoreUnlinkFault.SuccessWithoutObject | src/workspace.rs:1685-1705 | for any identifier and digest, a run in which the unlink behind the object name fails and a loser succeeds although its object is gone |
| StoreUnlinkFault.SuccessKeepsObjectIff | src/workspace.rs:1603-1633 | whatever other unlinks may fail, success of an import implies its stored object in every run if and only if no unlink behind that object name may fail |
| StoreReadable.ReadableStaysInRun | src/workspace.rs:1431-1436 | whatever fails, a file that a name denotes with a single link keeps name, link and bytes in every continuation |
| StoreQuietRuns.SuccessKeepsItsObject | src/workspace.rs:1566-1705 | if no unlink behind the object name of its digest failed before, success keeps object and record in every continuation, whatever then fails |
| ImportCode.Disk.PublishFileNoReplace | src/workspace.rs:1685-1705 | link, unlink and rollback, under interference: done, name taken, or a failure with the retry state that follows from it |
| ImportCode.Disk.RetryPublication | src/workspace.rs:1707-1718 | at most 25 attempts, ending published, beaten, or about to discard the temporary file |
| ImportCode.Disk.OpenExisting | src/workspace.rs:1603-1633 | the loser's wait: at most 25 opens, ending with a single-linked handle or a failed import |
| ImportCode.Disk.HashOpenFile | src/workspace.rs:1442-1465 | reads of any size hash the open object to its end and decide commit or failure |
| ImportCode.Disk.WriteTemp | src/workspace.rs:449-472 | writes of any size fill the temporary file to the whole content; without a failing call it always succeeds |
| ImportCode.Disk.CommitContentObject | src/workspace.rs:1566-1601 | publication, and for a loser discard and verification of the winner, end committed on success and with a failed import otherwise; alone and without faults it succeeds exactly if the object name is free or denotes a single-linked file of the imported length |
| ImportCode.Disk.WriteRecord | src/workspace.rs:1066-1109 | from a committed object, the record is written and published and the import returns success, or it returns failure; alone and without faults it succeeds exactly if the record name is free |
| ImportCode.Disk.ImportArtifact | src/workspace.rs:432-508 | on success, whatever other processes did meanwhile, the import is stored with no temporary file of its own; alone and without faults it succeeds exactly if the capture contract holds, the record name is free, and the object name is free or denotes a single-linked file of the imported length |
| PlanExecution.InvRun | src/cli.rs:911-983 | every interleaving of executions keeps locks and roots consistent |
| PlanExecution.MutualExclusion | src/workspace.rs:1051-1064 | at most one process is between creating a plan's lock and dropping it |
| PlanExecution.OnlyOwnRootsAreTouched | src/native.rs:61-67 | a process removes or changes only a root it created, while holding its plan's lock, even if cleanups fail |
| PlanExecution.RootsOnlyUnderLockIff | src/native.rs:714-771 | roots exist only under their plan's held lock in every run if and only if removing a root cannot fail |
| PlanExecution.RootOutlivesLock | src/workspace.rs:1150-1178 | a concrete run in which a failing removal leaves a root behind a dropped lock |
| PlanExecution.ExecutionCanFinish | src/cli.rs:911-983 | from any state without lock and root of its plan, an execution whose calls succeed runs over exactly what it copied, ends with the result of the native process, and leaves locks and roots as they were |
| PlanExecution.BusyPlanFails | src/workspace.rs:1051-1064 | an execution that finds its plan locked, or a root in its way, fails and leaves locks and roots as they were |
| ExecutionInput.ReadVerifiedFile | src/workspace.rs:1475-1518 | the bytes are returned exactly if no read fails, the file has one link and digest and length match |
| ExecutionInput.Executions.MaterializeArtifactExecutionInput | src/workspace.rs:730-856 | a new root holding exactly `input` with the described bytes, or the roots as they were; an existing root is never touched; success exactly if no call fails, plan id and descriptor are valid, there is no root yet and the object is the described single-linked one |
| ExecutionInput.Executions.FillRoot | src/workspace.rs:761-845 | the copy loop changes only the plan's root and succeeds exactly if no call fails and the bytes are the described ones |
| ExecutionInput.Executions.RollbackRoot | src/workspace.rs:1150-1178 | removes the plan's root and nothing else, or reports that it could not |
| ExecutionInput.Rehash | src/workspace.rs:730-856 | reading the written copy back accepts exactly the described bytes, unless a read fails |
| Utf8.DecodeEncode | src/git_subject.rs:435-487 | decoding undoes the UTF-8 encoding of every text |
| Utf8.EncodeDecode | src/git_subject.rs:435-487 | whatever decodes is the encoding of its text, so over-long forms and surrogates are refused |
| TreeArchive.ParseIsInverse | src/git_subject.rs:435-487 | a byte string parses to a list exactly if the list is canonical and the string is its archive: archives and canonical lists are in bijection |
| PathResolution.SafePathIff | src/git_subject.rs:620-633 | a name without backslash and colon whose first component is not `.git` is accepted exactly if a file system resolves it, from the root, to the place of its own components |
| TreeArchiveCode.SortSorts | src/git_subject.rs:382-433 | the sort orders the files by name bytes and keeps them as a multiset |
| TreeArchiveCode.OrderedIsCanonical | src/git_subject.rs:382-433 | ordered valid entries are canonical exactly if their names are distinct |
| TreeArchiveCode.CanonicalIsUnique | src/git_subject.rs:382-433 | a set of files has one canonical order |
| TreeArchiveCode.WriteTreeArchive | src/git_subject.rs:382-433 | accepts exactly lists whose every name leads to its own place below the root and has at most 16384 bytes, with a total that fits 64 bits, and writes the archive of the sorted files with its identity |
| TreeArchiveCode.FramesInjective | src/git_subject.rs:382-433 | concatenated frames of entries whose lengths fit their fields, valid or not, can be cut in one way only |
| TreeArchiveCode.ValidateRelativeTreePath | src/git_subject.rs:620-633 | the tests on the text and the loop over its components accept exactly the names that lead to their own place and avoid `.git` |
| TreeArchiveCode.WriterParserAgree | src/git_subject.rs:382-487 | what the writer accepts and writes is parsed back to exactly its sorted files, precisely if the names are distinct |
| TreeArchiveCode.TakeArchiveBytes | src/git_subject.rs:489-502 | the next bytes and the position after them, or an error exactly if they exceed the archive, without overflow |
| TreeArchiveCode.ReadFrame | src/git_subject.rs:435-487 | one turn of the loop accepts exactly a well-formed, correctly ordered frame and moves past it |
| TreeArchiveCode.ParseTreeArchive | src/git_subject.rs:435-487 | accepts exactly archives whose every visit succeeds, visits the entries in order, and returns the hash of the bytes after the magic with count and total, without overflow |
| TreeMaterialisation.ExtractsIffPrefixFree | src/git_subject.rs:541-592 | extraction into an empty directory succeeds exactly if no entry path is a proper component prefix of another, and then leaves exactly the archive's files |
| TreeMaterialisation.CollectTreeFiles | src/git_subject.rs:504-539 | in any listing order the walk returns every listed file once, or fails exactly on an unsafe name |
| TreeMaterialisation.WalkFindsEntries | src/git_subject.rs:504-539 | walking an extracted tree and sorting gives back the archive's entries |
| TreeMaterialisation.HashMaterializedTree | src/git_subject.rs:594-618 | on any directory: fails exactly on an unsafe name, and otherwise returns the identity of all its files, sorted |
| TreeMaterialisation.RehashOfArchive | src/git_subject.rs:594-618 | an extracted archive re-hashes to the digest, count and total that the parser returned, whatever the listing order |
| TreeRehash.SplitRelative | src/git_subject.rs:504-539 | the recorded name of a path denotes the path exactly if no component holds a backslash |
| TreeRehash.RecordedRehashes | src/git_subject.rs:594-618 | a directory that records the planned files has safe names and re-hashes to the planned identity in any listing order |
| TreeRehash.RehashIffRecorded | src/git_subject.rs:833-849 | some listing of a directory re-hashes to the planned identity if and only if its recorded names and contents are the planned files, one file for each, barring a second preimage |
| TreeRehash.VerifyMaterialized | src/git_subject.rs:833-849 | accepts every directory that records the planned files, and no other unless the planned digest has a second preimage; refuses a subject without a snapshot |
| TreeRehash.BackslashGoesUnseen | src/git_subject.rs:504-539 | the failing input: a directory whose one file name holds a backslash re-hashes to an archive whose file it does not hold, whatever the hash |
| TreeRehash.RecordedIsHeldIff | src/git_subject.rs:833-849 | such a directory holds the planned files at their own paths exactly if no path component holds a backslash |
| TreeRehash.RehashMeansUnchanged | src/git_subject.rs:833-849 | where file names hold no backslash, an unchanged re-hash means exactly the planned files at their own paths, barring a second preimage |
| TreeMaterialisation.Executions.Materialize | src/git_subject.rs:782-831 | success means a new root holding exactly the planned archive, every file at the place its path resolves to; failure leaves no root of its own, save by a failing removal, and never touches another; it succeeds exactly if no call fails, there was no root and the archive is extractable with the planned identity |
| PredecessorGraph.TopologicalIsAcyclic | src/data_contract_validation.rs:520-555 | a graph with a topological order of all steps has no cycle |
| PredecessorGraph.StuckHasCycle | src/data_contract_validation.rs:520-555 | a non-empty set of steps none of which can come first contains a cycle |
| AuditTopology.CheckRecords | src/data_contract_validation.rs:465-519 | the loops accept exactly the well-formed topologies: ids and predecessors strictly increasing, plans distinct, references known |
| AuditTopology.BuildMaps | src/data_contract_validation.rs:520-535 | in-degrees count the predecessors and the successor lists are the reversed edges, each once |
| AuditTopology.KahnVisits | src/data_contract_validation.rs:536-555 | no in-degree underflows, the pops are in topological order without repeats, and all steps are popped if and only if there is no cycle |
| AuditTopology.ValidateAuditTopology | src/data_contract_validation.rs:465-555 | accepts exactly the well-formed topologies whose predecessor graph has no cycle |
| AuditReceipt.ValidateAuditReceipt | src/data_contract_validation.rs:559-599 | the loop with its three sets accepts exactly ordered, valid runs with distinct plans and run ids; the step collision test cannot fail |
| AuditReceipt.PartIff | src/data_contract_validation.rs:601-631 | against a well-formed topology, ordered runs that all look up are exactly a part of its steps in its order, with distinct plans |
| AuditReceipt.AcceptedIsPart | src/data_contract_validation.rs:601-631 | the receipt's own checks, the reference and the look-ups together hold exactly if it records such a part of the topology it names |
| AuditReceipt.StepsById | src/data_contract_validation.rs:617-621 | the look-up map holds every step under its id and nothing else |
| AuditReceipt.ValidateAgainstTopology | src/data_contract_validation.rs:601-631 | accepts exactly receipts that name an accepted topology with its digest and record, with distinct runs, a part of its steps |
| PeImage.MapsToOne | src/native_qualifications.rs:785-805 | an address maps to at most one file offset, through the first section that contains it |
| PeImage.PeIsOne | src/native_qualifications.rs:765-947 | the declarative reading of an image determines machine, import set and delay count |
| PeImage.ImportsAreCapitals | src/native_qualifications.rs:806-914 | each import is a described name byte by byte, or 0x20 less exactly where its byte is in 0x61..0x7A, and every described name gives one |
| PeImage.CapitalsAgreeIff | src/native_qualifications.rs:908-910 | two described names give one import exactly if they differ in ASCII case alone |
| PeParser.ReadU16 | src/native_qualifications.rs:766-771 | the little-endian value, or an error exactly out of bounds |
| PeParser.ReadU32 | src/native_qualifications.rs:772-777 | the little-endian value, or an error exactly out of bounds |
| PeParser.RvaToOffset | src/native_qualifications.rs:785-805 | succeeds exactly if the address maps into raw bytes of its first section inside the file, and returns where |
| PeParser.ReadAsciiName | src/native_qualifications.rs:806-825 | succeeds exactly on a NUL-terminated name of 1 to 260 portable characters, and returns its letters as capitals, every other byte unchanged |
| PeParser.ReadHeader | src/native_qualifications.rs:827-864 | succeeds exactly if signatures and header fields are those of a PE32+ image with an import directory |
| PeParser.ReadSections | src/native_qualifications.rs:865-880 | the section headers, or an error exactly if the table is truncated |
| PeParser.ReadImports | src/native_qualifications.rs:881-914 | the names of all descriptors before the first all-zero one, or an error exactly if the table is unterminated within its slots or malformed |
| PeParser.CountDelayImports | src/native_qualifications.rs:922-940 | the number of descriptors before the first all-zero one, or an error exactly if there is none within the slots |
| PeParser.ParsePeImports | src/native_qualifications.rs:765-947 | for every byte string, in bounds and without overflow, accepts exactly PE32+ images with well-formed tables and returns what they say; the imports are the capitals of the described names and hold no small letter |
| Base64Url.TableIsAlphabet | src/python_admissions.rs:1138-1166 | the table is the alphabet of section 5 of RFC 4648 |
| Base64Url.DecodeEncode | src/python_admissions.rs:1138-1166 | encoding has a left inverse on every byte string, ceil(4n/3) characters, all of the alphabet |
| Base64Url.EncodeIsInjective | src/python_admissions.rs:1138-1166 | equal encodings are encodings of equal bytes |
| Base64Url.UrlsafeB64Nopad | src/python_admissions.rs:1138-1166 | the bit-packing loop computes that encoding |
| Decimal.ParseInvertsDigits | src/python_admissions.rs:1120-1128 | parsing the digits of a number gives the number, within 64 bits also as u64 |
| Decimal.ParseU64Iff | src/python_admissions.rs:1120-1128 | a text parses to a 64-bit number exactly if it is its digits after any zeros and at most one plus sign |
| Decimal.ParseI64Iff | src/manifests.rs:392-399 | a text parses to a signed 64-bit number exactly if it is its digits after any zeros and a fitting sign |
| WheelRecord.InspectZip | src/python_admissions.rs:1047-1093 | accepts exactly archives of 1 to 4096 admitted entries without case-folded collisions and returns their files |
| WheelRecord.ParseRecord | src/python_admissions.rs:1095-1132 | the loop accepts exactly the RECORD files whose rows are well formed and free of case-folded collisions, and returns the rows |
| WheelRecord.RecordHashDetermines | src/python_admissions.rs:1134-1136 | equal RECORD hash texts mean equal digests |
| WheelRecord.AgreementIsSameMap | src/python_admissions.rs:899-940 | the row-by-row checks and the two coverage checks hold if and only if members, RECORD and installed RECORD are one finite map |
| WheelRecord.CrossCheck | src/python_admissions.rs:897-940 | the nested loops accept exactly three equal maps from path to hash text and size, RECORD paths aside |
| WheelClosure.RecordPathIff | src/python_admissions.rs:900-935 | the loops pass over a path exactly if its last component is RECORD |
| WheelClosure.ClosedIff | src/python_admissions.rs:880-942 | the three maps are equal exactly if both RECORD files list, apart from such paths, the rows of the files and no others |
| WheelClosure.ProveWheelRecordClosure | src/python_admissions.rs:880-942 | succeeds exactly on one or more pairs, each an admitted archive with non-empty, well-formed RECORD files, both of which list exactly the files whose last component is not RECORD, each with its own length and hash text |
| WheelRecordLaws.LineOrderIsIrrelevant | src/python_admissions.rs:1095-1132 | two RECORD files with the same lines in any order are both errors or the same map |
| WheelRecordLaws.ClosureIgnoresLineOrder | src/python_admissions.rs:880-942 | the closure of a pair depends on the line order neither of the RECORD inside the wheel nor of the installed RECORD |
| WheelRecordLaws.SameLinesSameLength | src/python_admissions.rs:1078-1086 | lines in another order make a file of the same length, so the declared size of the archive entry stays right |
| WheelRecordLaws.InstalledRowsAreTheFiles | src/python_admissions.rs:880-942 | in a closed pair every wheel file whose last component is not RECORD is in both RECORD files with its length and a hash text no content of another digest has |
| WheelRecordLaws.RecordReadsBack | src/python_admissions.rs:1095-1132 | a table of writable rows, written one row a line, parses back to itself |
| AdmissionPayload.CodesAreSorted | src/python_admissions.rs:26-35 | the eight check codes are in strictly increasing order |
| AdmissionPayload.SortedListingIsUnique | src/python_admissions.rs:126-147 | a set of codes has one strictly sorted listing |
| AdmissionPayload.BlockersAreUnique | src/python_admissions.rs:111-147 | in a valid payload the blocker list is the only strictly sorted list of the unsatisfied codes |
| AdmissionValidation.BlockerTests | src/python_admissions.rs:126-147 | count, membership and order tests together hold exactly for that list |
| AdmissionValidation.ValidateCommon | src/python_admissions.rs:73-148 | the loops accept exactly the payloads of valid scope with the eight checks in order and that blocker list |
| AdmissionValidation.ValidateV1 | src/python_admissions.rs:150-178 | accepts exactly uncited payloads whose residual checks are all open; the retained-blocker search cannot fail |
| AdmissionValidation.ValidateV2 | src/python_admissions.rs:180-213 | accepts exactly payloads citing an admission, with residual checks observed and egress denial open |
| AdmissionValidation.ValidateV3 | src/python_admissions.rs:215-233 | accepts exactly payloads citing an admission, with residual checks observed |
| AdmissionValidation.ValidatePayload | src/python_admissions.rs:64-71 | accepts exactly the admissible payloads of the three versions |
| AdmissionTermination.EndsIffNoRevisit | src/python_admissions.rs:1318-1370 | in any registry verification ends if and only if the citations never come back to a record, and then within one nested call more than there are records |
| AdmissionTermination.AnswerIsOne | src/python_admissions.rs:1318-1370 | every verification that ends gives the one answer, whatever the number of calls it needed |
| AdmissionTermination.AcceptsStays | src/python_admissions.rs:1318-1370 | a record that verifies in any registry, sound or not, verifies in every larger one |
| AdmissionRegistry.ThreeLevelsSuffice | src/python_admissions.rs:1318-1370 | in a sound registry verification ends within three nested calls and accepts exactly the stored records |
| AdmissionRegistry.ChainOfVersionThree | src/python_admissions.rs:1345-1368 | citations go from version 3 to 2 to 1, scope and the five implementable checks unchanged |
| AdmissionRegistry.EgressStaysBlocked | src/python_admissions.rs:198-212 | before the network proof egress denial is a blocker of every record |
| AdmissionOperations.FirstIsAdmissible | src/python_admissions.rs:235-315 | the payload that `admit` builds passes its own validator whenever clock, recorder and operation are valid |
| AdmissionOperations.NextIsAdmissible | src/python_admissions.rs:474-519 | the payloads that the two proofs build pass their own validators and keep the five implementable checks |
| AdmissionOperations.BuildFirstChecks | src/python_admissions.rs:252-279 | the loop gives the residual checks failed and the others satisfied with the artifacts the inventory binds to them, or failed without |
| AdmissionOperations.BuildNextChecks | src/python_admissions.rs:474-491 | the loop replaces the three residual checks, without evidence, and leaves the other five |
| AdmissionOperations.Registrar.LoadVerified | src/python_admissions.rs:1229-1236 | on any registry in which the verification of the record ends, terminates and finds the record exactly if it verifies |
| AdmissionOperations.Registrar.VerifyRecord | src/python_admissions.rs:1318-1370 | on any registry in which its verification ends, accepts a stored record exactly if it and the records it cites verify |
| AdmissionOperations.QualifyGrows | src/python_qualifications.rs:236-243 | recording one more verified inventory keeps the registry sound |
| AdmissionOperations.Registrar.Admit | src/python_admissions.rs:235-325 | stores and returns exactly the version 1 record of `Added`, or changes nothing; in it each of the five implementable codes is off the blockers, with the evidence of the inventory, exactly if its proof passed, and the three residual codes block; the registry stays valid |
| AdmissionOperations.Registrar.ProveContainment | src/python_admissions.rs:455-526 | from a version 1 record only, stores the version 2 record, in which egress denial blocks and the other two residual codes block unless the proof satisfied them, or changes nothing |
| AdmissionOperations.Registrar.ProveNetwork | src/python_admissions.rs:545-623 | from a version 2 record only, stores the version 3 record, in which each residual code blocks unless the proof satisfied it, or changes nothing |
| AdmissionRuns.RunIsSound | src/python_admissions.rs:235-623 | every sequence of operations keeps the registry sound and never changes a stored record |
| AdmissionRuns.ReachableRecordsVerify | src/python_admissions.rs:1229-1236 | in every reachable registry each record is admissible, not granted, and verifies within three nested calls |
| AdmissionRuns.StoredRecordsKeepVerifying | src/python_admissions.rs:1229-1236 | a stored record keeps verifying after any further operations |
| AdmissionRuns.BlockersGoBackToProofs | src/python_admissions.rs:235-623 | in every run the record that a stored record of any version goes back to was stored by an admission, and an implementable code is off its blockers, with that evidence, exactly if its proof passed at that admission |
| AdmissionRuns.SelfCitationNeverEnds | src/python_admissions.rs:1345-1361 | a concrete well-formed registry, reached by no run, on which verification never ends |
| NativeText.LinesSplit | src/native.rs:1063-1085 | the lines concatenate to the text and a line feed ends every line but the last |
| NativeText.RangeHoldsValue | src/native.rs:1063-1085 | the byte range slices the output to the value, lies in the first matching line after the prefix and holds no line feed |
| NativeText.ExtractionIsUnique | src/run_validation.rs:791-813 | recorder and validator can only extract the same value and range |
| NativeText.ExtractTextPrefix | src/native.rs:1063-1085 | the offset loop finds the value in the first matching line, and fails exactly if no line matches or the bytes are not UTF-8 |
| NativeObservations.ExtractNativeResult | src/native.rs:974-1049 | the loop reports all projections in contract order or the reason of the first that fails |
| NativeObservations.LocatorPointsAtValue | src/native.rs:1051-1085 | read back, a text locator is two numbers that slice the bytes to the recorded text, and a JSON locator is the pointer that selects the recorded value |
| NativeObservations.ValidateObservation | src/run_validation.rs:704-771 | accepts exactly the observation that re-extraction gives from one exact captured stream |
| NativeObservations.ValidateNativeResult | src/run_validation.rs:647-702 | the loops accept exactly non-empty lists of distinct identities, one confirmed observation for each contract |
| NativeAgreement.ReportedIsAcceptedIff | src/run_validation.rs:647-771 | with distinct contracts, a reported list is accepted exactly if it is a permutation of what extraction yields from backed streams |
| NativeAgreement.RecordedIsAcceptedIff | src/native.rs:974-1049 | what the recorder writes is accepted exactly if it reports nothing or contracts are distinct and backed |
| NativeAgreement.ExecutedIsAccepted | src/native.rs:731-770 | on the streams that `execute` captures every recorded native result is accepted on reload |
| NativeAgreement.RecordExecution | src/native.rs:731-775 | imports the captured streams under their own roles, extracts from them, reports a contract mismatch if executable or subject changed, and records only what a reload accepts |
| NativeAgreement.AcceptedIsExtractionIff | src/run_validation.rs:647-771 | for every manifest, an accepted list is a permutation of what extraction yields if and only if the contract identities are distinct |
| NativeAgreement.DuplicateContractsAdmitForgery | src/run_validation.rs:671-699 | the failing input: with two contracts of one identity a made-up observation is accepted |
| Parameters.SplitOnceMeans | src/manifests.rs:344-348 | an item splits exactly if it holds an equals sign, at the first one |
| Parameters.ValidateParameter | src/manifests.rs:369-413 | accepts exactly revisions of 40 or 64 hexadecimal digits, listed values, integers within the stated bounds and short identifiers |
| Parameters.ValidateParameters | src/manifests.rs:334-367 | the loops compute the normalised map or fail on a bad, unknown, repeated, unsatisfactory or missing parameter |
| Parameters.SupplyIff | src/manifests.rs:344-356 | the items yield a map exactly if they are distinct known names with satisfactory values and the map is these pairs, whatever their order |
| Parameters.ReloadableIff | src/run_validation.rs:553-566 | any stored map renders and normalises to itself if and only if its names are declared, free of equals signs and satisfied, and nothing absent is required or has a default |
| Parameters.Revalidate | src/run_validation.rs:553-566 | accepts exactly those maps, in any rendering order |
| Parameters.RevalidatesIff | src/run_validation.rs:553-566 | an accepted map revalidates, in any rendering order, if and only if the defaults it was filled with hold |
| Parameters.EveryAcceptedMapRevalidates | src/manifests.rs:334-413 | with names free of equals signs and sound defaults every accepted map is a fixed point |
| Parameters.BadDefaultIsRecorded | src/manifests.rs:357-366 | a concrete default that is recorded first and refused on reload |
| RecordPublication.InvRun | src/workspace.rs:1066-1109 | every interleaving of record writers, with failing calls, rollbacks and retries, keeps the invariant |
| RecordPublication.NamesDenoteWholeRecords | src/workspace.rs:1066-1109 | whatever fails, a record name denotes the complete text of one process's record of that name |
| RecordPublication.RecordsAreWriteOnce | src/workspace.rs:1685-1705 | whatever fails, a record that can be read is never replaced, changed or removed in any continuation |
| RecordPublication.SuccessIsInTheTable | src/workspace.rs:1066-1109 | a write that returned success has put its own text under its name |
| RecordPublication.WriteCanFinish | src/workspace.rs:1066-1109 | from any state, a write whose calls succeed, up to 24 transient failures of the link aside, publishes the whole text exactly if the name is free, and otherwise fails and leaves every name alone |
| RecordPublication.LastAttemptFails | src/workspace.rs:1707-1718 | the 25th transient failure ends the write without success |
| RecordPublication.UnlinkFailureRollsBack | src/workspace.rs:1685-1705 | a failing unlink behind a fresh name takes the name back and tries again while transient and below 25 attempts; a failing rollback leaves the name and gives up |
| RecordPublication.DiscardCanFinish | src/workspace.rs:1707-1718 | a write that gave up removes its temporary file unless 25 removals fail, and leaves every name alone |
| StoreBridge.ArtifactsOnlyGrow | src/workspace.rs:1685-1705 | whatever fails, objects and artifact records that can be read stay readable and unchanged in every continuation |
| StoreBridge.StoreOnlyGrows | src/workspace.rs:1066-1109 | the store that both protocols leave on disk only grows, in every interleaving and with every fault |
| StoreBridge.WrittenIsInTheStore | src/workspace.rs:1066-1109 | what a process wrote with success is in the store under its registry and identifier, as its text decodes, in every continuation |
| StoreBridge.StoreHoldsWhatWasWritten | src/workspace.rs:1066-1109 | every entry of the store is the whole decoded text that some process wrote under that name |
| StoreReads.ImportIsInTheStore | src/workspace.rs:432-571 | without a failing unlink behind the object name of its digest, an import that returned success is in the store under its identifier |
| StoreReads.LoadedIsInTheStore | src/workspace.rs:573-588 | in every run without a failing unlink behind its record name or its object name, what a load returned is what the store shows |
| StoreReadFault.LoadWithoutRecord | src/workspace.rs:1249-1263 | for any identifier and digest, a run in which the unlink behind the record name fails and a load returns an artifact without a record file |
| StoreReadFault.LoadWithoutObject | src/workspace.rs:1431-1436 | the same for the object name: a load returns bytes whose object is not stored |
| StoreReadFault.LoadsReadTheStoreIff | src/workspace.rs:573-588 | whatever other unlinks may fail, every load of an identifier and digest returns what is in the store if and only if no unlink behind its record name or its object name may fail |
| Workspace.QualificationStays | src/native_qualifications.rs:179-209 | a bound qualification, its evidence read again, stays valid in every extension of the store |
| Workspace.InventoryStays | src/python_qualifications.rs:434-515 | a Python inventory that verifies, its capsule and every bound artifact read again, verifies in every extension of the store |
| Workspace.AdmissionStays | src/python_admissions.rs:1278-1307 | a bound admission, its whole citation chain and its inventory verified again, stays valid in every extension of the store |
| Workspace.InputsStay | src/run_validation.rs:195-341 | tool snapshot and staged executable, qualification, admission chain and subject, all read from the store again, keep holding in every extension of it |
| Workspace.PlanStays | src/workspace.rs:210-214 | a plan that loads and validates does so in every extension of the store |
| Workspace.AcceptanceStays | src/run_validation.rs:647-702 | the acceptance of a native result depends only on the bytes of the captured artifacts |
| Workspace.RunStays | src/workspace.rs:281-293 | a run that loads and validates does so, unchanged, in every extension of the store |
| WorkspaceCode.ReadArtifact | src/workspace.rs:573-588 | returns the record exactly if identifier, digest, descriptor and object agree |
| WorkspaceCode.ValidateToolIdentity | src/run_validation.rs:252-341 | accepts exactly identities whose snapshot artifact has the expected roles, type and origin and whose staged copy has the recorded digest and length |
| WorkspaceCode.LoadQualification | src/native_qualifications.rs:115-122 | the loop over the evidence accepts exactly the qualifications whose evidence loads as stated |
| WorkspaceCode.LoadCapsule | src/runtime_capsules.rs:381-504 | the loops over files and evidence accept exactly the capsules that are stored as declared |
| WorkspaceCode.LoadInventory | src/python_qualifications.rs:434-515 | accepts exactly inventories whose capsule, inputs and wrapper are stored as bound |
| WorkspaceCode.ValidateAdmission | src/python_admissions.rs:1278-1307 | accepts exactly references to an accepted admission of this digest, tool and operation whose inventory verifies |
| WorkspaceCode.ValidateArtifacts | src/run_validation.rs:600-645 | the nested loops with their two sets accept exactly lists of distinct committed artifacts whose every role is that of one artifact alone and of one exact raw stream |
| WorkspaceCode.ReadRun | src/workspace.rs:281-293 | returns the record exactly if identifier and digest agree and the run validates |
| RunLaws.CommittedIff | src/workspace.rs:573-588 | an artifact loads exactly if record and object are on disk with the stated digests and length under a valid descriptor |
| RunLaws.LoadedRunIsKept | src/workspace.rs:281-293 | a run that loads has its plan with equal inputs, its executable staged and preserved with one digest, every artifact as described, and every reported observation in the bytes it names |
| RunLaws.ExecutedRunLoads | src/native.rs:694-860 | the run that an execution of a verified plan records on the streams it imported loads from every later store that holds its record |
| Handoffs.BuiltHasLineage | src/evidence_handoffs.rs:10-57 | the handoff that `create` builds passes lineage verification exactly if its plan still validates and id and time are well formed |
| Handoffs.CapturedIsEligible | src/evidence_handoffs.rs:10-57 | every artifact that a loaded run captured can be handed off while the plan of the run verifies |
| Handoffs.VerificationStays | src/evidence_handoffs.rs:68-80 | a handoff that verifies with its retained digest verifies in every extension of the store |
| Handoffs.VerificationStaysOnDisk | src/evidence_handoffs.rs:68-80 | a handoff that verifies against the disk verifies in every continuation of both publication protocols, whatever fails |
| Handoffs.CreatedKeepsVerifying | src/evidence_handoffs.rs:10-57 | if the checks of `create` pass and its write returns success, the handoff verifies then and in every continuation, concurrent writers and failing calls included |
| Handoffs.LineageIsEvidence | src/evidence_handoffs.rs:82-133 | a handoff with lineage names a stored run and plan that agree, and the one artifact of its digest that the run captured, whose bytes are stored |
| Handoffs.DigestPinsTheEvidence | src/evidence_handoffs.rs:68-133 | two workspaces in which one retained digest verifies hold the same handoff, run, plan and artifact bytes, barring collisions |
| Handoffs.Registry.VerifyRunArtifact | src/evidence_handoffs.rs:112-133 | returns the record exactly if the run captured the artifact once and as the record says |
| Handoffs.Registry.VerifyRecordLineage | src/evidence_handoffs.rs:82-110 | what it accepts is evidence: run and plan stored under the named digests, the artifact captured at exactly one position, its bytes stored |
| Handoffs.Registry.Verify | src/evidence_handoffs.rs:68-80 | the returned record has the asked identifier, hashes to the retained digest, and is such evidence |
| Handoffs.Registry.Create | src/evidence_handoffs.rs:10-57 | succeeds exactly if run, plan and artifact allow it and the id is free, stores the record and returns it verified; otherwise changes nothing |

## Left out

- SHA-256, UUIDs, JSON serialisation and pointers, RFC 3339 parsing, ZIP inflation: function parameters or given results.
- The Windows publication path (`MoveFileExW`), share modes, Job Objects, AppContainers, ACLs and process creation: foreign calls.
- The check that an import source did not change while it was read: a source is one byte string here.
- Reparse points, time stamps, Windows case folding of file names: the file system has regular files, directories, names and link counts.
- Git subprocesses, bundles and `validate_planned_snapshot`: external tool behaviour; `Workspace` takes the outcome as a function of the stored bytes.
- The proofs of the implementable checks other than the wheel closure, and the process-level proofs: `admit` takes their outcomes as given.
- Subject candidates with their candidate-id seed, caller observations, pins, capsules, build identity: long conjunctions of field checks.
- The checks of runs and plans that look at the record and the embedded manifests alone (invocation, timestamps, limitations, paths and names of a tool identity): predicates of the record in `Workspace`; what reads the store is modelled.
- The semantics of a native qualification and of Git bundles: predicates of the stored bytes they rest on.
- The field checks of capsules and inventories that look at the records, the embedded manifests and pins, the recorder and the host: predicates of the records in `Workspace`, the same for one program on one host.
- Staged executables under a plan's own directory are written in place; `StoreBridge` has them appear whole, as the content-addressed ones do.
- `read_strict_json` of a record is one look at the disk in `StoreBridge`; its single calls are modelled for artifact records and objects only (`StoreReads`).
- AdmissionOperations.Registrar.Qualify: records an inventory that passes its own verification; that verification itself is not modelled.
- ImportCode.Disk.ImportArtifact: one importer's code against arbitrary steps of others, not the code of two importers side by side; the step system covers that.
- RunLaws.ExecutedRunLoads: takes the manifest to capture both streams exactly and to observe each thing once, as the embedded manifests do.
- NativeObservations.ValidateNativeResult: `ProcessExit` sources carry one text, since the validator refuses them unseen.
- WheelRecord.ParseRecord: `Path::is_absolute` is a parameter, because it differs between hosts.
- Command-line parsing and dispatch, other than the order of lock, root, cleanup and drop in `runs execute`.
