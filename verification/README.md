# bobr, modelled and proved in Dafny

bobr is a build system written in Rust: it builds objects from declarations, packs host tools
into relocatable bundles, extracts container images, publishes results in a content-addressed
repository, and shows and logs what it is doing. This project models the parts of it with the
most state, recursion and arithmetic, and proves what each of them is for.

`dafny verify dfyconfig.toml` checks everything.

## Layout

| modules | what they model |
|---|---|
| `Bundle`, `LibraryRuns`, `StartupSearch`, `Startup`, `StartupWalks`, `StartupVerifier`, `StartupClosure`, `StartupOrder`, `Dispatch` | the audit that a host bundle can start from its own files, and the launcher that later starts it |
| `Cbor`, `CborCodec`, `Master`, `MasterCodec`, `Content`, `ContentReader` | the deterministic CBOR wire format of repository masters and content envelopes |
| `Index` | fixed-width mapping indexes and content lists, searched on their raw bytes |
| `OciTree`, `OciLayer`, `OciExtractor` | applying OCI image layers to a file tree, symlinks included |
| `Viewport`, `ViewportResize`, `ActivityViewport`, `ViewportFailures` | the rows of the live terminal view |
| `EventLog` | sequence numbers of the event log under concurrent loggers |
| `Json`, `Identity` | the canonical JSON text behind build and reuse keys |
| `Environment`, `HostBundle` | lowering a bundle declaration, and evaluating a tool's environment |
| `TreeBuilder` | normalising and materialising inline trees |
| `Text`, `Order`, `Wrappers` | paths and separated text, orders and sorting, result types |

Objects that the program updates in place are classes (`StartupVerifier`, `Encoder`, `Decoder`,
`Extractor`, `ActivityViewport`, `ProcessEnvironment`, `Output`). Their methods are proved against
specification functions and predicates on values, and the theorems are about those.

## Main results

**Startup closure.** The audit is a memoised recursion over a possibly cyclic graph, with "active"
sets keyed by path and "verified" sets keyed by path and context. For libraries the methods are
proved equal to a run on an abstract graph, so what they verify, what they refuse and what they
spend of the state budget is determined for every bundle. In every accepted bundle each dependency
of each verified library state is verified in exactly the context in which it is loaded, or leads
back to that state; scripts and interpreters form an acyclic graph no longer than the state budget;
and each state was counted exactly once. Where no search directories are inherited, or no library
leads back to itself, more holds: every chain of loads stays within verified states, and the audit
succeeds if and only if some sound finished audit exists, so it never reports a cycle, an exhausted
budget or a missing file without cause. Without that condition both fail, and `StartupOrder` has the
bundles: one is accepted although the audit's own search, with the directories that each step
inherits, leads along a chain of DT_NEEDED entries to the wrong file, and swapping two DT_NEEDED
entries of its tool makes the audit refuse it. (This is a statement about searches; a loader that
loads each library once need not take that chain.) The launcher follows the very same
interpreter chain as the audit, and starts an accepted tool if and only if its loader path is
lexically clean and no library directory contains a colon.

**Wire format.** Every parse function is exact: it returns a value and a rest if and only if its
input is the encoder's text of that value followed by that rest. For masters, decoding undoes
encoding exactly for valid masters within the size limit, and encoding undoes decoding exactly when
the URL is spelled in normal form. Heads follow section 3 and section 4.2.1 of RFC 8949.

**Layers.** After any sequence of layers every record has all its ancestors recorded as
directories, whatever the kernel does with paths that leave the tree. Symlinks are followed inside the
tree, so a whiteout has a definite place. From a consistent state, a whiteout that stays in the tree
and succeeds keeps records and tree alike in paths, kinds and link targets if and only if it removes
nothing at a place other than the one it names; a stream without such whiteouts computes its meaning,
fails exactly when that fails, and stays consistent, and the first such whiteout breaks the agreement.
When moreover no whiteout disturbs an entry before it, the extractor computes the two-phase meaning of
the Image Layer Filesystem Changeset document of the OCI Image Format Specification (delete what the
whiteouts name, then add), failures included, if no whiteout is blocked (its lookup is refused, as
below a file, or it names `.`), and fails otherwise. For layers that list parents first and no path twice, not disturbing earlier entries is also necessary.

**Viewport.** Over all runs of start, finish, fail and resize the row allocator keeps its
invariant, and shrinking and growing back restores the rows exactly under a stated condition on the
displaced keys. A visible failure keeps its row as long as no resize takes that row off the screen, and
is never shown again once one does.

**Event log.** Over every interleaving, durable numbers are handed out once each without gaps on the
run counter and on every bound logger's counter.

**Keys.** Canonical JSON texts are equal exactly for values that are equal up to member order, and
pre-images of keys determine the kind of key, tag, version, config digest and inputs.

**Environment and trees.** An accepted declaration leaves the launcher nothing to refuse on lexical
grounds and puts wrapped-bin first in PATH; normalised trees are always materialised in full.

Places where the code differs from its own words or from what it is for, and the model follows the
code:

- the envelope writer checks the payload size although the reader checks the whole file
  (`Content.LargestPayloadIsUnreadable`);
- a dot in a tree path is refused only as the first segment and otherwise dropped, although the
  message says it is refused (`TreeBuilder.DotsRefusedIffLeading`);
- a whiteout also removes entries of its own layer that came before it
  (`OciLayer.LateWhiteoutExample`), and one below a file stops the extraction
  (`OciLayer.BlockedWhiteoutExample`);
- a whiteout below a symlink removes what it finds behind the link, whose record stays
  (`OciExtractor.LinkedWhiteoutExample`);
- the names `.wh..` and `.wh...` are taken for whiteouts of `.` and `..` (`OciExtractor.DotWhiteouts`);
  the first fails in every directory (`OciExtractor.DotWhiteoutFails`), the second empties the
  directory above, whose records stay (`OciExtractor.DotDotWhiteoutEmpties`);
- a visible failure is said to stay in place until the run ends, but a resize that takes its row away
  drops it for good (`ViewportFailures.FailureStays`);
- the builder's rules for loader paths and library directories are looser than the launcher's, so an
  accepted tool may not start (`Dispatch.AcceptedButNotLaunched`);
- whether the audit accepts libraries that load each other may depend on the order of DT_NEEDED
  entries (`StartupOrder.OrderOfNeededMatters`).

## Assumptions

- `Bundle.Canonicalizes`: canonicalising a canonical path gives the same path.
- `Dispatch.ParsersAgree`, `Dispatch.DirsResolved`: the builder's and the launcher's ELF readers agree
  on files the builder could parse, and both resolve the configured library directories alike.
- `Master.Normalises`: parsing the text of a parsed URL gives that URL back.
- `OciTree`: one lookup follows at most 40 symlinks, and none of them lies on the way to the
  extraction root. Removing a directory empties it first and refuses a path that ends in `.`. When
  the removal of its contents takes away the path itself, the emptied directory stays, and whether the
  call reports success is open.
- Executables are audited with no inherited search directories, as every call in the program passes
  none.

## Model

| member | source | states |
|---|---|---|
| `StartupVerifier.VerifyStartupClosure` | bobr-builder/src/host_bundle_verify.rs:199-250 | success means a finished sound audit accepts every tool; a closed certificate is never refused; where nothing is inherited or no library leads back to itself, success if and only if a finished sound audit exists; for a single ELF tool of any bundle, success if and only if its run succeeds |
| `StartupVerifier.StartupVerifier.AuditExecutable` | bobr-builder/src/host_bundle_verify.rs:278-331 | success verifies the resolved state and restores the active sets; the outcome for an ELF file is determined; a state covered by a certificate is never refused |
| `StartupVerifier.StartupVerifier.AuditNew` | bobr-builder/src/host_bundle_verify.rs:294-330 | the same for a state that is neither verified nor active: it is active during its own audit and counted once |
| `StartupVerifier.StartupVerifier.AuditFormat` | bobr-builder/src/host_bundle_verify.rs:301-325 | an ELF file or script passes only with everything it relies on ranked below it |
| `StartupVerifier.StartupVerifier.AuditScript` | bobr-builder/src/host_bundle_verify.rs:333-397 | the interpreter one level deeper and the managed env command at depth 0 are verified first |
| `StartupVerifier.StartupVerifier.AuditElfEntry` | bobr-builder/src/host_bundle_verify.rs:399-435 | succeeds exactly when the loader stands alone and the run over all dependencies succeeds, and then verifies each dependency in its own context |
| `StartupVerifier.StartupVerifier.AuditLibrary` | bobr-builder/src/host_bundle_verify.rs:437-461 | follows the run on the graph of states exactly: outcome, verified states, budget spent, active set restored |
| `StartupVerifier.StartupVerifier.AuditDependencies` | bobr-builder/src/host_bundle_verify.rs:463-529 | follows the run over the dependencies exactly, and fails when one has no acceptable provider |
| `StartupVerifier.ResolveDependency` | bobr-builder/src/host_bundle_verify.rs:501-525 | yields the provider of a DT_NEEDED entry with the right SONAME and versions, and fails exactly when there is none |
| `StartupVerifier.ResolveNeeded` | bobr-builder/src/host_bundle_verify.rs:531-579 | finds the first entry of the search path, and fails exactly when no file is found |
| `StartupVerifier.DeduplicatePaths` | bobr-builder/src/host_bundle_verify.rs:804-807 | keeps first occurrences in order |
| `StartupVerifier.StartupVerifier.BumpState` | bobr-builder/src/host_bundle_verify.rs:639-648 | counts one state and fails exactly beyond 4096 |
| `StartupVerifier.StartupVerifier.CloseExecutable` | bobr-builder/src/host_bundle_verify.rs:326-330 | moving a state from active to verified keeps soundness and the count of states |
| `StartupSearch.FindsIsUnique` | bobr-builder/src/host_bundle_verify.rs:531-579 | the search has at most one outcome |
| `StartupSearch.VerifiedIsClosed` | bobr-builder/src/host_bundle_verify.rs:437-529 | where nothing is inherited or no library leads back to itself, verified states rely on verified states only, in exactly their contexts |
| `StartupSearch.RpathFreeTrail` | bobr-builder/src/host_bundle_verify.rs:463-483 | without effective DT_RPATH no reachable state inherits anything |
| `Startup.EndExecutableSound` | bobr-builder/src/host_bundle_verify.rs:278-331 | soundness and budget survive the end of an executable's audit |
| `Startup.EntrySound` | bobr-builder/src/host_bundle_verify.rs:399-435 | auditing the libraries of an ELF entry keeps soundness and the budget and verifies all of them |
| `LibraryRuns.VisitAllGrows` | bobr-builder/src/host_bundle_verify.rs:437-529 | a run only adds states whose paths were not active, pays for each once, and leaves every dependency verified or active |
| `LibraryRuns.VisitIsExact` | bobr-builder/src/host_bundle_verify.rs:437-529 | every state it verifies relies on states verified in exactly their contexts, or leading back to it |
| `LibraryRuns.VisitKeepsKnown` | bobr-builder/src/host_bundle_verify.rs:437-529 | during the run every dependency of a verified state is verified in some context or active, by path |
| `LibraryRuns.VisitSucceeds` | bobr-builder/src/host_bundle_verify.rs:437-529 | within a closed set of states no audit fails and a budget of its size suffices, in any order |
| `LibraryRuns.NoReturnIsClosed` | bobr-builder/src/host_bundle_verify.rs:437-529 | when no chain of dependencies meets a path twice, exact contexts are all there is |
| `StartupClosure.LibraryClosure` | bobr-builder/src/host_bundle_verify.rs:437-529 | in every accepted bundle each DT_NEEDED of each verified state has a provider verified in some context, and in exactly the context loaded here unless it leads back to the state |
| `StartupClosure.EveryLoadChainIsLoadable` | bobr-builder/src/host_bundle_verify.rs:463-579 | with the directories each step inherits, every chain of loads from an accepted ELF file stays within verified states, if verified states rely on each other only, as they do where nothing is inherited or no library leads back to itself |
| `StartupOrder.OrderOfNeededMatters` | bobr-builder/src/host_bundle_verify.rs:437-529 | a family of bundles accepted in one order of two DT_NEEDED entries and refused in the other |
| `StartupOrder.BothOrdersAreAcceptable` | bobr-builder/src/host_bundle_verify.rs:437-529 | in both orders a sound finished audit exists, so the refused order refutes the converse |
| `StartupOrder.AcceptedChainFails` | bobr-builder/src/host_bundle_verify.rs:437-529 | in the accepted ones the audit's own search, with inherited directories, leads along a chain to a state whose dependency is the wrong file |
| `StartupOrder.AcceptedChainReturns` | bobr-builder/src/host_bundle_verify.rs:437-529 | they inherit directories and a library leads back to itself |
| `StartupClosure.StartupGraphIsAcyclic` | bobr-builder/src/host_bundle_verify.rs:278-397 | from an accepted tool no walk meets a path twice or is longer than the budget |
| `StartupWalks.TrailAvoids` | bobr-builder/src/host_bundle_verify.rs:278-331 | a certified path is never met while active, although memo states carry a depth and active paths do not |
| `StartupWalks.WithinBudget` | bobr-builder/src/host_bundle_verify.rs:639-648 | an audit that stays within a certificate stays within the state budget, with room for all its libraries |
| `Bundle.ParseShebang` | bobr-bundle-launcher/src/script.rs:134-166 | a parsed interpreter is a clean absolute path |
| `Bundle.ResolvedIsStable` | bobr-builder/src/host_bundle_verify.rs:603-637 | a resolved path resolves to itself |
| `Text.CleanIsSafe` | bobr-bundle-launcher/src/dynamic.rs:258-272 | the launcher's lexical rule implies the builder's, with the same components |
| `Dispatch.SameInterpreter` | bobr-bundle-launcher/src/dispatch.rs:278-310 | the launcher resolves a shebang interpreter to the builder's file |
| `Dispatch.DispatchFollowsChain` | bobr-bundle-launcher/src/dispatch.rs:212-269 | the launcher's recursion computes the plan of the whole script chain: program, argv[0] and argument order |
| `Dispatch.VerifiedChain` | bobr-builder/src/host_bundle_verify.rs:278-397 | a verified state has a script chain within the depth limit that ends in an accepted ELF file |
| `Dispatch.LoaderAgrees` | bobr-bundle-launcher/src/dynamic.rs:172-204 | the launcher takes an accepted loader exactly when its text is clean |
| `Dispatch.LauncherDirsAgree` | bobr-bundle-launcher/src/dynamic.rs:206-233 | the launcher takes the builder's library directories exactly when none contains a colon |
| `Dispatch.AcceptedToolLaunches` | bobr-bundle-launcher/src/dispatch.rs:188-310 | an accepted tool is dispatched along its chain, never fails on recursion or interpreters, and launches if and only if loader text and directories are clean |
| `Dispatch.AcceptedButNotLaunched` | bobr-builder/src/host_bundle_verify.rs:581-601 | a family of bundles whose tool is always accepted, and refused by the launcher if and only if PT_INTERP has a doubled slash or the library directory contains a colon |
| `Dispatch.DoubledSlash` | bobr-bundle-launcher/src/dynamic.rs:258-272 | the two lexical rules differ on every path with a doubled slash in front |
| `Cbor.HeadExact` | bobr-repo/src/cbor.rs:44-62 | a head parses if and only if it is the shortest encoding of its value |
| `Cbor.BytesExact` | bobr-repo/src/cbor.rs:91-94 | byte strings parse exactly |
| `Cbor.TextExact` | bobr-repo/src/cbor.rs:96-100 | text strings parse exactly, and only valid UTF-8 |
| `Cbor.OptionalUintExact` | bobr-repo/src/cbor.rs:102-109 | null or unsigned integer parses exactly |
| `Cbor.OptionalBytesExact` | bobr-repo/src/cbor.rs:111-118 | null or byte string parses exactly |
| `Cbor.ManyExact` | bobr-repo/src/master.rs:155-161 | counted lists of exact items parse exactly |
| `CborCodec.Encoder.Head` | bobr-repo/src/cbor.rs:44-62 | appends the shortest head |
| `CborCodec.Decoder.Head` | bobr-repo/src/cbor.rs:128-169 | agrees with the exact parse, on results, errors and what is left |
| `CborCodec.Decoder.Take` | bobr-repo/src/cbor.rs:184-198 | consumes exactly the asked bytes or fails |
| `CborCodec.Decoder.Finish` | bobr-repo/src/cbor.rs:120-126 | succeeds exactly at the end of input |
| `Master.Validate` | bobr-repo/src/master.rs:208-232 | holds exactly for valid masters |
| `Master.SlotSize` | bobr-repo/src/master.rs:18-21 | every encoded slot takes at least 193 bytes |
| `Master.SlotsSize` | bobr-repo/src/master.rs:147-161 | count times 193 fits in the bytes of any genuine slot list, so the guard never rejects one |
| `Master.SlotsExact` | bobr-repo/src/master.rs:400-441 | slot lists parse exactly |
| `Master.DecodeUndoesEncode` | bobr-repo/src/master.rs:117-180 | decoding an encoded master returns it if and only if it is valid and within the limit |
| `Master.EncodeUndoesDecode` | bobr-repo/src/master.rs:117-180 | accepted bytes re-encode to themselves if and only if they spell the URL in normal form |
| `Master.AcceptedIsValid` | bobr-repo/src/master.rs:138-180 | whatever is accepted is a valid master within the limit |
| `MasterCodec.EncodePayload` | bobr-repo/src/master.rs:117-135 | writes exactly the specified bytes |
| `MasterCodec.DecodePayload` | bobr-repo/src/master.rs:138-180 | computes exactly the specified parse |
| `MasterCodec.EncodeSlot` | bobr-repo/src/master.rs:400-417 | appends one slot's bytes |
| `MasterCodec.DecodeSlot` | bobr-repo/src/master.rs:419-441 | agrees with the exact slot parse |
| `Content.ObjectExact` | bobr-repo/src/content.rs:358-386 | an object prefix parses if and only if the writer produces it |
| `Content.FsFileExact` | bobr-repo/src/content.rs:388-408 | the same for filesystem files |
| `Content.ObjectEnvelopeExact` | bobr-repo/src/content.rs:272-318 | an object file is accepted if and only if it is the writer's prefix followed by its announced payload |
| `Content.FsFileEnvelopeExact` | bobr-repo/src/content.rs:320-356 | the same for filesystem files |
| `Content.ObjectRoundTrip` | bobr-repo/src/content.rs:53-88 | a written object reads back, with its payload in place, if and only if the whole file is within the limit |
| `Content.FsFileRoundTrip` | bobr-repo/src/content.rs:138-178 | the same for filesystem files |
| `Content.LargestPayloadIsUnreadable` | bobr-repo/src/content.rs:653-667 | a payload that the writer accepts and no reader does |
| `Content.WriteObjectPrefix` | bobr-repo/src/content.rs:358-386 | writes exactly the object prefix |
| `Content.WriteFsFilePrefix` | bobr-repo/src/content.rs:388-408 | writes exactly the filesystem-file prefix |
| `ContentReader.OpenObjectEnvelope` | bobr-repo/src/content.rs:272-318 | the streaming reader computes exactly the envelope parse |
| `ContentReader.OpenFsFileEnvelope` | bobr-repo/src/content.rs:320-356 | the same for filesystem files |
| `ContentReader.ValidatePayloadExtent` | bobr-repo/src/content.rs:635-651 | the payload must end with the file |
| `Index.LowerBound` | bobr-repo/src/index.rs:260-273 | splits the range where a monotone question turns false |
| `Index.ValidateIndex` | bobr-repo/src/index.rs:71-104 | accepts exactly key-sorted records without a repeated pair, although the seen hashes are cleared per key |
| `Index.Candidates` | bobr-repo/src/index.rs:131-147 | equals the wire-order filter of all records by key |
| `Index.RecordsRoundTrip` | bobr-repo/src/index.rs:150-161 | reading back written records gives them |
| `Index.EncodeIndex` | bobr-repo/src/index.rs:120-128 | succeeds exactly for sorted, distinct records within the limit |
| `Index.ValidateList` | bobr-repo/src/index.rs:171-192 | accepts exactly strictly increasing lists within the limit |
| `Index.Contains` | bobr-repo/src/index.rs:220-226 | binary search equals membership |
| `Index.EncodeList` | bobr-repo/src/index.rs:208-217 | gives a list that is valid exactly when the number of distinct hashes is within the limit |
| `Index.ListHoldsInput` | bobr-repo/src/index.rs:208-217 | an encoded list is increasing and holds exactly the given hashes, once each |
| `Index.ContainsEncoded` | bobr-repo/src/index.rs:208-226 | membership in an encoded list equals membership in the input |
| `Index.ListIsCanonical` | bobr-repo/src/index.rs:208-217 | encodings are equal exactly for equal sets of hashes |
| `OciLayer.SanitizeIsExact` | bobr-builder/src/oci_extract.rs:928-956 | a plain path is its own spelling |
| `OciLayer.BelowIsTextual` | bobr-builder/src/oci_extract.rs:747-765 | the text test for descendants is the proper prefix order on components |
| `OciLayer.RootedAfter` | bobr-builder/src/oci_extract.rs:445-594 | every item leaves every record with its ancestors recorded as directories |
| `OciLayer.AgreeAfter` | bobr-builder/src/oci_extract.rs:445-701 | every item keeps records and tree alike in paths, kinds and link targets |
| `OciLayer.RunIsConsistent` | bobr-builder/src/oci_extract.rs:362-408 | both invariants hold after any sequence of items |
| `OciLayer.StepCommutes` | bobr-builder/src/oci_extract.rs:644-808 | a whiteout commutes with an entry it does not disturb, including whether the entry fails |
| `OciLayer.StreamIsTwoPhase` | bobr-builder/src/oci_extract.rs:362-408 | when no whiteout disturbs an entry before it, the stream equals delete-then-add, failures included, if no whiteout is blocked, and fails otherwise |
| `OciLayer.PrefixesAgreeIffUnblocked` | bobr-builder/src/oci_extract.rs:362-408 | then all prefixes have their two-phase meaning if and only if no whiteout is blocked |
| `OciLayer.BlockedWhiteoutDiffers` | bobr-builder/src/oci_extract.rs:644-701 | a blocked whiteout, such as one below a file, stops the stream although two phases succeed |
| `OciLayer.BlockedWhiteoutExample` | bobr-builder/src/oci_extract.rs:644-701 | a concrete tree and layer of that kind |
| `OciLayer.TwoPhaseIsExact` | bobr-builder/src/oci_extract.rs:362-408 | for layers with parents first and no path twice, as far as the stream gets, all prefixes have their two-phase meaning if and only if no whiteout disturbs an earlier entry |
| `OciLayer.LateWhiteoutDiffers` | bobr-builder/src/oci_extract.rs:644-701 | a whiteout right after an entry it disturbs always changes the meaning |
| `OciLayer.LateWhiteoutExample` | bobr-builder/src/oci_extract.rs:644-701 | a concrete layer whose stream and two-phase meanings differ |
| `OciExtractor.Extractor.EnsureParentDirectories` | bobr-builder/src/oci_extract.rs:767-808 | adds exactly the missing ancestors, to records and tree, or fails exactly at a non-directory |
| `OciExtractor.Extractor.RemoveExistingPath` | bobr-builder/src/oci_extract.rs:703-750 | removes the path and all below it, from records and tree |
| `OciExtractor.Extractor.ExtractFile` | bobr-builder/src/oci_extract.rs:445-477 | keeps the step contract: records always, tree and failure from consistent states |
| `OciExtractor.Extractor.ExtractDirectory` | bobr-builder/src/oci_extract.rs:479-504 | the same; a recorded directory keeps its contents |
| `OciExtractor.Extractor.ExtractSymlink` | bobr-builder/src/oci_extract.rs:506-543 | the same |
| `OciExtractor.Extractor.ExtractHardLink` | bobr-builder/src/oci_extract.rs:545-594 | the same; fails when the target was cleared with the path |
| `OciExtractor.Extractor.HandleWhiteout` | bobr-builder/src/oci_extract.rs:644-701 | the same for whiteouts that do not stray; one that removes something at another place breaks the agreement of records and tree |
| `OciExtractor.AgreementIffNothingReached` | bobr-builder/src/oci_extract.rs:644-745 | a whiteout that stays in the tree and succeeds keeps records and tree alike if and only if it removes nothing at a place other than the one it names; if so, it fails exactly when blocked |
| `OciExtractor.NamedWhiteoutStaysPut` | bobr-builder/src/oci_extract.rs:644-701 | without symlinks on its way, a whiteout of a plain name stays put, and is blocked if and only if it runs into a file |
| `OciExtractor.LinkedWhiteoutDiffers` | bobr-builder/src/oci_extract.rs:644-745 | a whiteout below a symlink to a directory removes the directory's entry and no record |
| `OciExtractor.LinkedWhiteoutExample` | bobr-builder/src/oci_extract.rs:644-745 | consistent states of that kind, in which records and tree disagree afterwards |
| `OciExtractor.DotWhiteouts` | bobr-builder/src/oci_extract.rs:644-701 | the names .wh.. and .wh... are whiteouts of . and .. |
| `OciExtractor.DotWhiteoutFails` | bobr-builder/src/oci_extract.rs:686-745 | in every directory the first of them fails |
| `OciExtractor.DotDotWhiteoutEmpties` | bobr-builder/src/oci_extract.rs:686-745 | the second, if it succeeds, has emptied the directory above, and its records stay |
| `OciTree.WalkByName` | bobr-builder/src/oci_extract.rs:684-696 | without symlinks on the way a lookup goes by name: it is refused exactly at a file, and reaches exactly the directories |
| `OciTree.EmptyingRemoves` | bobr-builder/src/oci_extract.rs:652-664 | emptying a directory that has entries removes something, even when the way to it leads through its own entries |
| `OciExtractor.Extractor.ExtractTarStream` | bobr-builder/src/oci_extract.rs:362-408 | a stream without straying whiteouts computes its meaning, fails exactly when that fails, and keeps both invariants; its two-phase meaning when orderly and unblocked; if only the last entry may stray, records and tree agree in the end if and only if it does not |
| `OciExtractor.Extractor.ExtractLayers` | bobr-builder/src/oci_extract.rs:333-360 | the same meaning and invariants for all layers of an image |
| `OciExtractor.MetadataOrder` | bobr-builder/src/oci_extract.rs:810-839 | visits every record once, and no directory before anything below it |
| `Viewport.ActivityRowCapacity` | bobr-core/src/logging.rs:1327-1342 | rows fit the screen, the requested lines and the number of jobs |
| `Viewport.StartedIsValid` | bobr-core/src/logging.rs:1454-1472 | starting keeps the invariant |
| `Viewport.FinishedIsValid` | bobr-core/src/logging.rs:1474-1486 | finishing keeps it |
| `Viewport.FailedIsValid` | bobr-core/src/logging.rs:1490-1501 | failing keeps it |
| `Viewport.ResizedIsValid` | bobr-core/src/logging.rs:1503-1519 | resizing keeps it, gives the asked number of rows and loses no activity |
| `Viewport.RowsAreDistinct` | bobr-core/src/logging.rs:1732-1737 | rows show different keys and each can be looked up |
| `ActivityViewport.RunIsValid` | bobr-core/src/logging.rs:1444-1574 | after any events the view is valid and has as many rows as last asked for |
| `ActivityViewport.ActivityViewport.StartOrUpdate` | bobr-core/src/logging.rs:1454-1472 | the new view is the specified one |
| `ActivityViewport.ActivityViewport.Finish` | bobr-core/src/logging.rs:1474-1486 | the new view is the specified one |
| `ActivityViewport.ActivityViewport.Fail` | bobr-core/src/logging.rs:1490-1501 | the new view is the specified one |
| `ActivityViewport.ActivityViewport.SetCapacity` | bobr-core/src/logging.rs:1503-1519 | the new view is the specified one |
| `ActivityViewport.ActivityViewport.TakeHidden` | bobr-core/src/logging.rs:1537-1550 | pops the first live builder, else the first live source, and forgets dead keys before it |
| `ActivityViewport.ActivityViewport.FillIdleRows` | bobr-core/src/logging.rs:1552-1558 | idle rows take waiting keys in order |
| `ActivityViewport.ActivityViewport.RowMessages` | bobr-core/src/logging.rs:1732-1737 | every row's activity is found |
| `ViewportResize.FillFromIsFillRows` | bobr-core/src/logging.rs:1537-1558 | filling row by row consumes the live waiting keys in order |
| `ViewportResize.FinishedPromotes` | bobr-core/src/logging.rs:1474-1486 | a finished key's row goes to the head of the waiting keys, builders before sources |
| `ViewportResize.StartedWaitsLast` | bobr-core/src/logging.rs:1454-1472 | without an idle row a new activity waits behind all others of its kind |
| `ViewportResize.ShrinkAndRegrowRestores` | bobr-core/src/logging.rs:1503-1558 | shrinking and growing back restores the rows if and only if displaced rows follow no idle one, are unfailed, builders first, with no builder waiting before a displaced source |
| `ViewportFailures.FailureStays` | bobr-core/src/logging.rs:1488-1519 | after a visible failure, and events that neither finish nor fail that key, its row shows it if and only if no resize went to that many rows or fewer; otherwise no row shows it |
| `ViewportFailures.ResizeKeepsRows` | bobr-core/src/logging.rs:1503-1558 | a resize shows a failed key where it was, as far as there are rows, and nowhere else |
| `EventLog.TicketsAreExact` | bobr-core/src/logging.rs:570-588 | over every interleaving no durable number is used twice or lost, on the run and every bound logger |
| `EventLog.ThreadsWriteInOrder` | bobr-core/src/logging.rs:652-662 | records of one thread appear in the order of their numbers |
| `EventLog.QuiescentLogIsGapFree` | bobr-core/src/logging.rs:570-662 | once all threads are done the numbers of a channel are exactly those below its number of durable events, each once |
| `EventLog.QuiescentFileIsComplete` | bobr-core/src/logging.rs:737-743 | the file has one line for each durable event |
| `EventLog.FileOrderExample` | bobr-core/src/logging.rs:570-588 | lines of different threads may be out of order |
| `Json.CanonicalIsExact` | bobr-core/src/identity.rs:254-292 | canonical texts are equal if and only if the values are equal up to member order |
| `Json.ValuePrefix` | bobr-core/src/identity.rs:260-292 | a value's text tells it from any other and shows where it ends |
| `Identity.Output.WriteCanonical` | bobr-core/src/identity.rs:260-292 | appends exactly the canonical text |
| `Identity.ToHex` | bobr-core/src/identity.rs:140-147 | writes two lower-case digits for each byte |
| `Identity.HexIsInjective` | bobr-core/src/identity.rs:140-147 | different digests have different texts |
| `Identity.PreimagesAreInjective` | bobr-core/src/identity.rs:181-213 | equal pre-images mean equal kind, tag, version, config digest and slot-to-hash map |
| `Identity.KindsNeverCoincide` | bobr-core/src/identity.rs:221-252 | a build pre-image is never a reuse pre-image |
| `Environment.JoinList` | bobr-bundle-launcher/src/environment.rs:347-356 | joins the values with colons |
| `Environment.ResolveValue` | bobr-bundle-launcher/src/environment.rs:307-341 | a resolved value is not empty and contains no colon |
| `Environment.ProcessEnvironment.ApplyOne` | bobr-bundle-launcher/src/environment.rs:226-279 | one rule changes its own variable as specified and no other, and keeps values and traces on the same names |
| `Environment.ProcessEnvironment.ApplyRules` | bobr-bundle-launcher/src/environment.rs:218-282 | in whatever order rules are listed, each variable gets its own rule; succeeds exactly when every rule is valid and resolves |
| `Environment.BuildEnvironment` | bobr-bundle-launcher/src/environment.rs:163-201 | the result is, on each variable, the common rule and then the tool's rule applied to the filtered host value |
| `Environment.CombinedEntries` | bobr-bundle-launcher/src/environment.rs:240-258 | prepending puts the rule's entries before the inherited ones, appending after |
| `Environment.HostInfluence` | bobr-bundle-launcher/src/environment.rs:163-201 | loader-sensitive host values never get through, and a trace that names the host belongs to a value containing the host's |
| `HostBundle.LowerRuntimeConfig` | bobr-builder/src/host_bundle.rs:374-447 | accepts exactly the acceptable declarations, and yields safe paths, valid rules and the reserved PATH rule |
| `HostBundle.LowerTools` | bobr-builder/src/host_bundle.rs:450-500 | lowers every tool or none, and keeps the tools lowered before |
| `HostBundle.LoweredEnvironmentIsOk` | bobr-builder/src/host_bundle.rs:502-538 | lowered rules pass the launcher's own validation |
| `HostBundle.LoweredPathIsSafe` | bobr-builder/src/host_bundle.rs:540-560 | lowered paths pass the launcher's lexical rule |
| `HostBundle.LoweringIsInjective` | bobr-builder/src/host_bundle.rs:540-560 | different declared paths lower to different paths |
| `HostBundle.LoweredBundle` | bobr-bundle-launcher/src/config.rs:71-122 | the final validation adds the conditions on names, literals and kernel, and no others |
| `HostBundle.WrappedBinComesFirst` | bobr-bundle-launcher/src/environment.rs:163-201 | for every tool and host environment the first entry of PATH is the wrapped-bin directory |
| `HostBundle.EvaluateTool` | bobr-builder/src/host_bundle.rs:374-500 | the whole pipeline fails only because of the bundle's files, and otherwise puts wrapped-bin first |
| `TreeBuilder.ValidateRelPath` | bobr-builder/src/tree.rs:230-282 | accepted paths have plain components |
| `TreeBuilder.DotsRefusedIffLeading` | bobr-builder/src/tree.rs:230-282 | an otherwise acceptable path with dot segments is refused if and only if the first segment is a dot |
| `TreeBuilder.InteriorDotIsDropped` | bobr-builder/src/tree.rs:230-282 | an interior dot is accepted and dropped |
| `TreeBuilder.NormalizeEntries` | bobr-builder/src/tree.rs:148-218 | succeeds exactly for non-empty, checked, distinct entries without a file or symlink above another, and returns them sorted |
| `TreeBuilder.CollectDirectories` | bobr-builder/src/tree.rs:315-321 | collects exactly the needed directories |
| `TreeBuilder.AddParentDirectories` | bobr-builder/src/tree.rs:371-378 | adds exactly the proper ancestors |
| `TreeBuilder.CreateDirectories` | bobr-builder/src/tree.rs:323-336 | each directory is created once, after its parent, and no creation fails |
| `TreeBuilder.MaterializeDirectory` | bobr-builder/src/tree.rs:304-369 | always succeeds, with exactly the needed directories and the entries' contents |
| `TreeBuilder.BuildTree` | bobr-builder/src/tree.rs:117-146 | succeeds exactly for buildable declarations; the output is the single file or the tree of the entries |

## Left out

- VerifyStartupClosure: for several tools, scripts among them, in bundles where directories are inherited and a library leads back to itself, success is stated one way only; which of them pass then depends on the order of the audit.
- VerifyStartupClosure: the resolution of the bundle's own layout before the audit (wrappers, `bundle.toml`, environment paths) is not modelled.
- ExtractTarStream: for a whiteout that leads out of the tree only the records are claimed, because what lies there is not part of the tree; after one that removed something at another place, tree and failure of later entries are not claimed.
- HandleWhiteout: what a failing call has already removed is not modelled; the extraction stops there.
- ExtractTarStream: reading errors, non-UTF-8 names, names with NUL, extended attributes, warnings and the removal of directory entries one by one are not modelled.
- MetadataOrder: the order of the calls is modelled, not chown and chmod themselves.
- OpenObjectEnvelope: reading in chunks, memory reservation, compression and hashing of payloads are not modelled.
- TicketsAreExact: 64-bit wrap-around of counters and write errors of the file sink are not modelled.
- CanonicalIsExact: texts are sequences of characters; their UTF-8 encoding, and the spelling of numbers beyond being number tokens, are not modelled.
- PreimagesAreInjective: SHA-256 is not modelled, so the claim is about the digested text.
- BuildEnvironment: which error is reported when several rules fail is not modelled.
- MaterializeDirectory: errors of the file system other than missing parents and existing paths (names with NUL, name length, permissions) and the final setting of modes are not modelled.
- Ed25519 signatures, COSE headers, zstd, tar and ELF parsing, TOML: libraries that are not part of this model.
- Terminal rendering, byte and rate formatting, heartbeat timing and error texts: display only.
- Merging, moving, importing and exporting filesystem trees, and the content store: not part of this model.
- Simple accessors, command-line parsing and kernel release checks: they would only add easy members.
