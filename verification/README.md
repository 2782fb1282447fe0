# OpenCodex relay: a verified model

A Dafny 4.11 model of the parts of the OpenCodex relay and its tools whose correctness depends on
whole runs, on arbitrary user text, or on two separate functions agreeing. Each component is
modelled the way the source works: code that computes values as functions, loops as methods with
invariants, objects that change as classes, concurrent protocols as step systems in which every
interleaving is a run. `dafny verify dfyconfig.toml` checks the whole project.

| files | component |
|---|---|
| `Wrappers`, `Text` | optional values and results; searching, lines, trimming and the CRLF replacement |
| `CodexConfig`, `CodexConfigLaws`, `CodexReadBack` | the marker-owned block inside a Codex configuration |
| `CodexHome`, `CodexHomeLaws`, `CodexAnswers` | inspection, validation, and the two-file enable and disable |
| `NativeRepair`, `RepairAnswers`, `LocalRelayLaws` | the second, independent classifier of a Codex home, and what disabling makes of it |
| `Lifecycle`, `LifecycleLiveness` | the catalog refresh loop with its gate, child call and reports |
| `Catalog`, `AppServer`, `Activation`, `ActivationAnswers` | catalog files, restart marker and app-server restarts |
| `OAuth`, `OAuthLaws`, `OAuthAnswers` | the OAuth session manager |
| `Recovery`, `RecoveryLaws`, `RecoveryCompletion` | the generation-bound removal-recovery token |
| `RelayConfig`, `RelayConfigAnswers`, `Handoff` | the relay configuration, and who owns routing after a handoff |
| `Closure`, `ClosureOrder`, `ClosureDigest` | the package-closure walk and its digest stream |
| `Sse`, `SsePrinting`, `SseAnswers` | the event-stream parser |
| `Upstream`, `UpstreamOrder`, `UpstreamLock` | release versions and the chain of release locks |

What the outside decides (network answers, the file system, the clock, locks, other processes,
JSON, hashes, URL and path libraries) is a parameter of each operation or an environment step,
and the laws hold for every value of it.

For each component the laws come in two directions: what no run or input can bring about, and
exactly when an operation accepts, refuses or gets its work done. The files whose names end in
`Answers`, `Liveness`, `Completion` and `Order` hold the second kind.

Where the code does less than one would expect, the law states exactly when it holds, and a second
lemma shows an input at which it does not:

- Removing the managed block undoes enabling it only if neither value contains the end marker
  (`RemoveUndoesEnable`, `EndMarkerExample`); without a table header each further enable leaves one
  more newline (`RunOfEnables`).
- The block's values read back only without newline and backslash, because the reader undoes
  quotes but not backslashes (`BaseUrlReadsBack`, `CatalogReadsBack`, `BackslashExample`).
- Reading CRLF as LF is not idempotent where a CR stands in front of a CRLF (`NormaliseTwice`,
  `NormaliseTwiceExample`), and removing the block from the raw file and from the text as read
  differ when a CR stands at a seam (`RemovalCommutes`, `DirtySeamExample`).
- Disabling a home that the relay owns does not make it native when a second marker stands behind
  the block, when the cut joins the text around the block into a marker, or when a CR at a seam
  brings a commented key to life (`LocalRelayBecomesNative`, `SecondMarkerExample`,
  `JoinedMarkerExample`, `DirtySeamKeyExample`). Whole and unique marker lines with every CR before
  an LF rule all of this out (`TidyBecomesNative`).
- A home that validates as managed cannot be enabled again when one of its values holds a marker of
  the other owner (`ManagedCanEnable`, `ForeignValueExample`).
- A lifecycle with an invalid interval reports Unknown and then, by its deferred call, Paused
  (`InvalidConfigEndsPaused`, for every run).
- A marker write that fails after the catalog was replaced is never made up for, because the next
  refresh finds equal bytes (`StepHonest`, `LostMarkerIsNeverRepaired`, `LostMarkerExample`).
- A login flow that the API has opened stays open, neither stored nor closed, when it is not
  acceptable or when no session id can be drawn for it (`FlowIsKeptOrClosed`, `OpenFlowExample`).
- The removal record is protected only by the routing lock between its last comparison and its
  release (`ReleaseIsBound`; `StrayWriterIsNotSeen`, for every other record; `StrayWriterRun`).
- An application of a lock that is interrupted between its files cannot be completed by repeating
  it (`RepeatedApplication`, for every candidate).

## Model

| member | source | states |
|---|---|---|
| `CodexConfig.FindRootAssignment` | client/relay/internal/codexconfig/config.go:744-759 | the line scan finds the first root assignment of a key, and nothing from the first table header on |
| `CodexConfig.FindInsertion` | client/relay/internal/codexconfig/config.go:486-493 | the insertion point is the first table-header line, or the end |
| `CodexConfig.Enable` | client/relay/internal/codexconfig/config.go:458-498 | the scan-and-insert code computes the enabled text, or the same refusal, as its specification does; `EnableAnswers` says which, exactly |
| `CodexConfigLaws.CanonicalIsWellFormed` | client/relay/internal/codexconfig/config.go:14-63 | both compiled-in namespaces have markers of the spelling the laws below need, distinct from each other |
| `CodexConfigLaws.EscapeDelimits` | client/relay/internal/codexconfig/config.go:787-789 | an escaped value ends at the first quote that is not part of it, whatever follows |
| `CodexConfigLaws.EscapeInjective` | client/relay/internal/codexconfig/config.go:787-789 | escaping is injective |
| `CodexConfigLaws.ContainsEscaped` | client/relay/internal/codexconfig/config.go:787-789 | escaping neither hides nor creates an occurrence of a marker |
| `CodexConfigLaws.BlockInjective` | client/relay/internal/codexconfig/config.go:180-215 | two managed blocks with the same text bind the same URL and the same catalog |
| `CodexConfigLaws.InsertedShape` | client/relay/internal/codexconfig/config.go:458-498 | an enabled text is the root lines, the block, and the tables |
| `CodexConfigLaws.RemoveInserted` | client/relay/internal/codexconfig/config.go:706-725 | removing a block whose values hold no end marker gives back the text around it, plus one newline when there is no table header |
| `CodexConfigLaws.RemovalLeavesMarker` | client/relay/internal/codexconfig/config.go:706-725 | when a value holds the end marker, the removal stops inside the block and its real end marker stays behind |
| `CodexConfigLaws.RemoveUndoesEnable` | client/relay/internal/codexconfig/config.go:458-498 | removing after enabling restores the text, up to that newline, if and only if neither value holds the end marker |
| `CodexConfigLaws.EndMarkerExample` | client/relay/internal/codexconfig/config.go:706-725 | the end marker as catalog path of an empty file: removal does not give the file back |
| `CodexConfigLaws.AdmitAgain` | client/relay/internal/codexconfig/config.go:458-475 | enabling again is admitted and starts from the text of the first enable |
| `CodexConfigLaws.RunOfEnables` | client/relay/internal/codexconfig/config.go:458-498 | after any run of enables the text depends only on the last values; without a table header each further enable leaves one more newline |
| `CodexConfigLaws.FinalNewlineReads` | client/relay/internal/codexconfig/config.go:732-759 | that extra newline changes nothing that is read from the root |
| `CodexReadBack.UnescapeOfEscape` | client/relay/internal/codexconfig/config.go:732-742 | reading undoes writing exactly for values without a backslash |
| `CodexReadBack.RootStringOneLine` | client/relay/internal/codexconfig/config.go:732-759 | a root value that is read never spans lines |
| `CodexReadBack.BaseUrlReadsBack` | client/relay/internal/codexconfig/config.go:458-498 | after enabling, the effective base URL is the given one if and only if it has no newline and no backslash |
| `CodexReadBack.CatalogReadsBack` | client/relay/internal/codexconfig/config.go:458-498 | the same for the catalog path, behind a one-line URL |
| `CodexReadBack.BackslashExample` | client/relay/internal/codexconfig/config.go:732-742 | one backslash as URL or as catalog path does not read back |
| `CodexReadBack.EnableFrame` | client/relay/internal/codexconfig/config.go:458-498 | every other key reads as before, and the lines are the old root lines, the block, and the unchanged lines from the first header on |
| `CodexHome.Files.EnableWithInteractiveProfile` | client/relay/internal/codexconfig/config.go:270-294 | the two-file enable: success is the specified pair of files, and a failing second write puts the first file back |
| `CodexHome.Files.DisableWithInteractiveProfile` | client/relay/internal/codexconfig/config.go:336-371 | the two-file disable with the same rollback |
| `Text.NormaliseTwice` | client/relay/internal/codexconfig/config.go:688-700 | reading CRLF as LF twice is reading it once if and only if no CR stands in front of a CRLF |
| `Text.NormaliseTwiceExample` | client/relay/internal/codexconfig/config.go:688-700 | CR CR LF becomes CRLF and only then LF |
| `CodexHomeLaws.NormaliseReads` | client/relay/internal/codexconfig/config.go:688-700 | reading CRLF as LF changes no root assignment and no table header |
| `CodexHomeLaws.NormaliseBlock` | client/relay/internal/codexconfig/config.go:688-700 | a block read with CRLF as LF is the block of the values so read |
| `CodexHomeLaws.SpanOfEnabled` | client/relay/internal/codexconfig/config.go:180-215 | the managed span found in an enabled file is exactly the block when no value holds the end marker, and a shorter text otherwise |
| `CodexHomeLaws.RenderedProfileValid` | client/relay/internal/codexconfig/config.go:381-394 | a rendered side profile is recognised if and only if its values are single lines |
| `CodexHomeLaws.EnableThenValidate` | client/relay/internal/codexconfig/config.go:180-215 | managed validation accepts what enabling wrote if and only if both files can carry the values |
| `CodexHomeLaws.EnableThenDisable` | client/relay/internal/codexconfig/config.go:336-371 | disabling after enabling leaves the text around the block and no side profile |
| `CodexHomeLaws.ManagedDeterminesValues` | client/relay/internal/codexconfig/config.go:180-215 | a home validates for at most one triple of listener, interactive listener and catalog |
| `CodexHomeLaws.NativeExcludesManaged` | client/relay/internal/codexconfig/config.go:180-233 | no home is both native and managed |
| `CodexAnswers.KeyIsSet` | client/relay/internal/codexconfig/config.go:744-759 | a line assigns a root key if and only if it spells key, equals sign and value with white space around, and then it assigns the trimmed value |
| `CodexAnswers.EnableAnswers` | client/relay/internal/codexconfig/config.go:458-498 | each answer of the edit exactly: another owner, a torn block, a routing key, another provider, accepted; by markers and root lines |
| `CodexAnswers.RemovesAnyBlock` | client/relay/internal/codexconfig/config.go:706-725 | removal takes a block whatever stands in it, with one line ending, and nothing else |
| `CodexAnswers.InspectionAnswers` | client/relay/internal/codexconfig/config.go:95-159 | when a home can be inspected, and each flag of the inspection by files, markers and root lines |
| `CodexAnswers.EnableIsAccepted` | client/relay/internal/codexconfig/config.go:270-294 | the two-file enable is accepted if and only if the inspection succeeds, finds nothing foreign or unmanaged, and no marker of the other owner is in the file |
| `CodexAnswers.NativeCanEnable` | client/relay/internal/codexconfig/config.go:224-294 | every home that validates as native can be enabled, with any values |
| `CodexAnswers.ManagedCanEnable` | client/relay/internal/codexconfig/config.go:180-294 | a home that validates as managed can be enabled again if and only if its values hold no marker of the other owner |
| `CodexAnswers.ForeignValueExample` | client/relay/internal/codexconfig/config.go:180-294 | a catalog path that holds the other owner's begin marker: managed, but it cannot be enabled again |
| `CodexAnswers.DisableIsAccepted` | client/relay/internal/codexconfig/config.go:336-371 | the two-file disable is accepted if and only if the inspection succeeds and finds no other owner |
| `NativeRepair.ClassifyBaseURLs` | client/relay/internal/codexconfig/native_repair.go:244-257 | the loop over root lines finds exactly the owned and unmanaged base URLs |
| `NativeRepair.ClassifyCatalogs` | client/relay/internal/codexconfig/native_repair.go:259-272 | the same for catalogs |
| `NativeRepair.ClassifyProviders` | client/relay/internal/codexconfig/native_repair.go:274-287 | the same for providers |
| `NativeRepair.InspectNativeRepair` | client/relay/internal/codexconfig/native_repair.go:47-132 | the inspection computes the specified kind and reason, and reports which keys the file sets; `EarlyAnswers` and `LateAnswers` say which, exactly |
| `NativeRepair.NoClaims` | client/relay/internal/codexconfig/native_repair.go:244-287 | the three line classifiers find nothing if and only if the root is clean |
| `NativeRepair.CleanRootByKeys` | client/relay/internal/codexconfig/native_repair.go:244-297 | what the line classifiers call clean, in terms of the key lookups of the other inspection |
| `NativeRepair.StateOnlyIsNative` | client/relay/internal/codexconfig/native_repair.go:47-132 | `state_only` holds if and only if native validation accepts and no root line names another provider |
| `NativeRepair.ManagedIsLocalRelay` | client/relay/internal/codexconfig/native_repair.go:47-132 | a home that validates as managed is `local_relay` if and only if no marker of the other owner is in the file and only openai is named around the block |
| `RepairAnswers.CatalogPathExactly` | client/relay/internal/codexconfig/native_repair.go:299-305 | a path is the OpenCodex catalog if and only if its last part has that name, with either kind of slash |
| `RepairAnswers.ClaimsByLine` | client/relay/internal/codexconfig/native_repair.go:244-287 | what the three classifiers find together, line by line: a line sets at most one key, and is OpenCodex's or not |
| `RepairAnswers.InspectFails` | client/relay/internal/codexconfig/native_repair.go:47-132 | the inspection fails if and only if a file it looks at cannot be read |
| `RepairAnswers.EarlyAnswers` | client/relay/internal/codexconfig/native_repair.go:47-113 | exactly when the reason is an incomplete marker, a foreign owner or an invalid artifact |
| `RepairAnswers.LateAnswers` | client/relay/internal/codexconfig/native_repair.go:95-132 | exactly when the reason is mixed owners, local relay, OpenCodex, an unmanaged override or clean, by the root lines around the block |
| `RepairAnswers.OpenCodexExactly` | client/relay/internal/codexconfig/native_repair.go:47-132 | `opencodex` if and only if the file can be read, neither owner has a marker or side profile, some root line is OpenCodex's and so is every line that routes |
| `RepairAnswers.UnmanagedExactly` | client/relay/internal/codexconfig/native_repair.go:47-132 | an unmanaged override if and only if, likewise, some root line routes and none is OpenCodex's |
| `NativeRepair.RemovalCommutes` | client/relay/internal/codexconfig/config.go:706-725 | removing the block commutes with the CRLF replacement if and only if no CR stands at the two seams |
| `NativeRepair.DirtySeamExample` | client/relay/internal/codexconfig/config.go:706-725 | a block followed by CR CR LF: the raw removal leaves CR CR LF, the one on the text as read leaves nothing |
| `LocalRelayLaws.LocalRelayDisables` | client/relay/internal/codexconfig/native_repair.go:95-132 | a `local_relay` home can be disabled |
| `LocalRelayLaws.LocalRelayBecomesNative` | client/relay/internal/codexconfig/native_repair.go:47-132 | for clean seams it is then `state_only` if and only if the file has no marker behind the first block and the cut joins none together |
| `LocalRelayLaws.RemovalLeaves` | client/relay/internal/codexconfig/config.go:706-725 | what removal leaves holds a marker if and only if the file has one behind the first block or the cut joins one together |
| `LocalRelayLaws.TidyBecomesNative` | client/relay/internal/codexconfig/native_repair.go:47-132 | with whole marker lines, each marker once and every CR before an LF, disabling a `local_relay` home makes it `state_only` |
| `LocalRelayLaws.JoinedMarkerExample` | client/relay/internal/codexconfig/config.go:706-725 | one block, whose removal joins the text around it into a begin marker |
| `LocalRelayLaws.SecondMarkerExample` | client/relay/internal/codexconfig/config.go:706-725 | a second begin marker on a line behind the block |
| `LocalRelayLaws.DirtySeamKeyExample` | client/relay/internal/codexconfig/config.go:658-674 | CR CR LF behind the block: disabling brings a commented base URL to life |
| `Lifecycle.StepKeepsInv` | client/relay/cmd/opencodex-relay/lifecycle.go:117-304 | every step of the loop, its child call or the environment keeps the invariant: one call at a time, and Running while it may be under way |
| `Lifecycle.NoEgressWhilePaused` | client/relay/cmd/opencodex-relay/lifecycle.go:117-304 | in every interleaving at most one call is outstanding, the report is then Running, and after the return it is Paused with none |
| `Lifecycle.AtMostOneMoreStart` | client/relay/cmd/opencodex-relay/lifecycle.go:192-304 | after the gate closes for good at most one call starts, and only if its check had passed |
| `Lifecycle.StartedCounts` | client/relay/cmd/opencodex-relay/lifecycle.go:192-304 | the starts that are counted are exactly the calls a run adds |
| `Lifecycle.MeasureDecreases` | client/relay/cmd/opencodex-relay/lifecycle.go:117-304 | under a closed gate every loop event reports Paused or lowers a measure of control point, outstanding call and cancellation |
| `Lifecycle.NeverStuck` | client/relay/cmd/opencodex-relay/lifecycle.go:117-304 | before the return some loop event or call return is always possible |
| `Lifecycle.ClosedGatePauses` | client/relay/cmd/opencodex-relay/lifecycle.go:157-304 | so more loop events than the measure bring a Paused report with no call outstanding |
| `Lifecycle.DrainAfterClose` | client/relay/cmd/opencodex-relay/lifecycle.go:117-304 | the drain point over whole runs from the start: at most one more call, then Paused with no call outstanding |
| `Lifecycle.InvalidConfigEndsPaused` | client/relay/cmd/opencodex-relay/lifecycle.go:117-140 | with an invalid interval no call is made and the deferred report overwrites Unknown with Paused |
| `LifecycleLiveness.OpenGateNeverPauses` | client/relay/cmd/opencodex-relay/lifecycle.go:117-304 | from an open state, a run that never closes the gate reports Paused only when it is finished |
| `LifecycleLiveness.UnwatchedNeverPauses` | client/relay/cmd/opencodex-relay/lifecycle.go:117-304 | without a watcher every whole run shows Paused only at its end |
| `LifecycleLiveness.ReturnsOnlyWhenTold` | client/relay/cmd/opencodex-relay/lifecycle.go:117-190 | in every interleaving the loop returns only for a cancelled parent or an invalid configuration |
| `LifecycleLiveness.DueRefreshIsCalled` | client/relay/cmd/opencodex-relay/lifecycle.go:192-242 | a due refresh is called after two moves of the loop, in every run that leaves the gate open |
| `LifecycleLiveness.DueProbeIsCalled` | client/relay/cmd/opencodex-relay/lifecycle.go:267-304 | a due probe likewise, while its gate is open and none is recent |
| `LifecycleLiveness.WorkIsPossible` | client/relay/cmd/opencodex-relay/lifecycle.go:117-304 | from every reachable state with an open gate and no cancellation, at most eight events start another refresh, or an admitted probe |
| `LifecycleLiveness.CancelIsHeard` | client/relay/cmd/opencodex-relay/lifecycle.go:117-304 | every select hears a cancelled parent: the loop returns, or drains the call it waits for |
| `LifecycleLiveness.CancelledCanFinish` | client/relay/cmd/opencodex-relay/lifecycle.go:117-304 | from every reachable cancelled state at most seven events end the lifecycle, Paused and with no call outstanding |
| `Closure.SortByName` | client/relay/scripts/review-teardown-profiles.py:208-218 | sorting children loses and invents none |
| `Closure.SortSorted` | client/relay/scripts/review-teardown-profiles.py:208-218 | the result ascends by the bytes of the name |
| `Closure.SortIgnoresListing` | client/relay/scripts/review-teardown-profiles.py:208-218 | the order of a directory listing does not matter |
| `Closure.Walk` | client/relay/scripts/review-teardown-profiles.py:208-218 | the explicit stack yields exactly the recursive pre-order walk, and stops |
| `Closure.EachNodeOnce` | client/relay/scripts/review-teardown-profiles.py:208-218 | as many entries as nodes, no path twice, the root first |
| `ClosureOrder.LeqExactly` | client/relay/scripts/review-teardown-profiles.py:208-218 | names are compared in ascending byte order |
| `ClosureOrder.WalkExactly` | client/relay/scripts/review-teardown-profiles.py:208-218 | the walk holds exactly the paths of the tree with the nodes found there, strictly ascending name by name |
| `ClosureDigest.FieldDelimits` | client/relay/scripts/review-teardown-profiles.py:203-205 | a length-prefixed field below 2^64 bytes is self-delimiting |
| `ClosureDigest.BigEndianReads` | client/relay/scripts/review-teardown-profiles.py:203-205 | a length reads back from its eight bytes, most significant first |
| `ClosureDigest.RootEntryBytes` | client/relay/scripts/review-teardown-profiles.py:221-239 | the bytes of one entry written out |
| `ClosureDigest.EncodeDelimits` | client/relay/scripts/review-teardown-profiles.py:221-239 | an entry is self-delimiting although it has three or four fields |
| `ClosureDigest.StreamInjective` | client/relay/scripts/review-teardown-profiles.py:203-239 | equal byte streams come from equal entry lists |
| `ClosureDigest.RelativePathInjective` | client/relay/scripts/review-teardown-profiles.py:221-239 | the printed relative path determines the path |
| `ClosureDigest.ClosureDigest` | client/relay/scripts/review-teardown-profiles.py:221-239 | the loop feeds the hash the specified stream, and stops at an unsupported entry |
| `ClosureDigest.DigestDefined` | client/relay/scripts/review-teardown-profiles.py:221-239 | a digest exists if and only if no entry is unsupported |
| `ClosureDigest.DigestStops` | client/relay/scripts/review-teardown-profiles.py:221-239 | and it is refused exactly for the first unsupported entry of the walk |
| `ClosureDigest.RowsDetermine` | client/relay/scripts/review-teardown-profiles.py:208-239 | the rows of a walk determine the tree and where it ends |
| `ClosureDigest.DigestIdentifiesTree` | client/relay/scripts/review-teardown-profiles.py:203-239 | two digest inputs are equal if and only if the trees agree in every name, mode, kind, target and content digest |
| `Sse.Parse` | pilot/scripts/validate-responses-sse.py:17-80 | the line loop with its nested dispatch computes the specified frames or error |
| `Sse.PartialIsPrefixMonotone` | pilot/scripts/validate-responses-sse.py:17-80 | if a capture parses in partial mode, every character prefix parses to a prefix of its frames |
| `Sse.HasEventIsStable` | pilot/scripts/validate-responses-sse.py:146-148 | a positive has-event is not retracted by a longer capture that parses |
| `SsePrinting.FeedPrinted` | pilot/scripts/validate-responses-sse.py:24-80 | what one printed line does to the parser |
| `SsePrinting.PrintedStreamParses` | pilot/scripts/validate-responses-sse.py:17-80 | printing blocks with LF, CRLF or CR, comments and optional spaces, and parsing them, in either mode, gives what each block means |
| `SsePrinting.PrintedFramesParse` | pilot/scripts/validate-responses-sse.py:17-80 | blocks that spell typed frames, with comment blocks between and comments behind, parse to exactly those frames in either mode |
| `SsePrinting.CutStreamParses` | pilot/scripts/validate-responses-sse.py:17-80 | a partial parse of any part of a printed stream gives a prefix of its frames |
| `SseAnswers.BlockAnswers` | pilot/scripts/validate-responses-sse.py:29-56 | each answer about one block exactly: [DONE], no JSON, no object, a type that is no string, missing or in conflict with the event, or the frame |
| `SseAnswers.TailDecides` | pilot/scripts/validate-responses-sse.py:17-80 | whatever lines stand behind the last block, partial mode ignores them and strict mode refuses them if and only if they name an event or hold data |
| `SseAnswers.FirstErrorWins` | pilot/scripts/validate-responses-sse.py:17-80 | the first block that is no frame decides the answer, whatever follows |
| `SseAnswers.StrictOrIncomplete` | pilot/scripts/validate-responses-sse.py:17-80 | for any text of complete lines both modes agree, except that strict mode may find it incomplete |
| `OAuth.ZeroBytes` | client/relay/internal/containerruntime/oauth.go:249-271 | the loop leaves no byte of the buffer |
| `OAuth.Manager.LoadAdminToken` | client/relay/internal/containerruntime/oauth.go:249-271 | on failure the lease is back and every secret is wiped; on success the buffers of both loaded tokens are wiped, only the returned copy is left, and the lease is held |
| `OAuth.ValidateProviders` | client/relay/internal/containerruntime/oauth.go:336-363 | the loop accepts if and only if there are at most 64 well-formed providers, none twice, and Codex is among them |
| `OAuth.Manager.Providers` | client/relay/internal/containerruntime/oauth.go:69-89 | one call inside one lease, no secret left, and the list exactly when it is well formed |
| `OAuth.Manager.CleanupExpired` | client/relay/internal/containerruntime/oauth.go:443-474 | the loop removes and counts as specified, also when it stops half-way; `CleanupAnswers` says what, exactly |
| `OAuth.Manager.HasActiveGenericProvider` | client/relay/internal/containerruntime/oauth.go:476-498 | the loop answers as specified |
| `OAuth.Manager.Start` | client/relay/internal/containerruntime/oauth.go:91-156 | store, log and answer are those of the specified step, and no secret is left |
| `OAuth.Manager.StartUnderLease` | client/relay/internal/containerruntime/oauth.go:116-156 | the part between taking and releasing the lease |
| `OAuth.Manager.Status` | client/relay/internal/containerruntime/oauth.go:158-191 | as for Start |
| `OAuth.Manager.Submit` | client/relay/internal/containerruntime/oauth.go:193-222 | as for Start; the buffer of the submitted input, like every other, holds only zeros |
| `OAuth.Manager.Cancel` | client/relay/internal/containerruntime/oauth.go:224-247 | as for Start |
| `OAuthLaws.LeaseDiscipline` | client/relay/internal/containerruntime/oauth.go:69-271 | over every run a lease is taken only when none is held, every API call falls inside one, and none is left |
| `OAuthLaws.ReleasedAsOftenAsTaken` | client/relay/internal/containerruntime/oauth.go:249-271 | so each lease is released exactly once |
| `OAuthLaws.CleanupMakesRoom` | client/relay/internal/containerruntime/oauth.go:443-474 | a cleanup only removes, and when it succeeds fewer than 64 sessions are left |
| `OAuthAnswers.CleanupSucceeds` | client/relay/internal/containerruntime/oauth.go:443-474 | the loop succeeds if and only if every listed session can be read and, where expired, removed |
| `OAuthAnswers.CleanupTakes` | client/relay/internal/containerruntime/oauth.go:443-474 | what the loop takes away was listed and expired, also when it fails; when it succeeds nothing listed and expired is left |
| `OAuthAnswers.CleanupAnswers` | client/relay/internal/containerruntime/oauth.go:443-474 | a cleanup leaves exactly the live sessions, counts them, and succeeds if and only if every file can be managed and fewer than 64 are live |
| `OAuthAnswers.ActiveAnswers` | client/relay/internal/containerruntime/oauth.go:476-498 | the search for a generic flow answers whether there is one |
| `OAuthAnswers.StartAnswers` | client/relay/internal/containerruntime/oauth.go:91-156 | a start gives a receipt if and only if it is granted, in terms of request, store and outside; the store is then the live sessions and the new one |
| `OAuthAnswers.SessionLives` | client/relay/internal/containerruntime/oauth.go:91-276 | over every run a session stays stored, unchanged, until it is reported finished or is over 900 seconds old |
| `OAuthAnswers.LiveSessionIsServed` | client/relay/internal/containerruntime/oauth.go:158-247 | a request for a live session reaches the API, whose answer alone decides receipt and removal |
| `OAuthAnswers.OldSessionIsDropped` | client/relay/internal/containerruntime/oauth.go:158-222 | an older one is refused and dropped without asking the API |
| `OAuthLaws.NoActiveFlow` | client/relay/internal/containerruntime/oauth.go:476-498 | the answer false means no stored generic session of that provider |
| `OAuthLaws.RequestKeepsInv` | client/relay/internal/containerruntime/oauth.go:91-247 | every request keeps the store valid, bounded and free of double generic flows |
| `OAuthLaws.EveryRunIsSound` | client/relay/internal/containerruntime/oauth.go:91-276 | over every run from an empty store: valid sessions under their own ids, at most 64, one generic flow per provider |
| `OAuthLaws.FinishedIsDead` | client/relay/internal/containerruntime/oauth.go:158-247 | a complete, failed or cancelled receipt leaves the session gone or expired for good |
| `OAuthLaws.NoSubmitAfterFinish` | client/relay/internal/containerruntime/oauth.go:158-276 | after such a receipt, with fresh ids and a clock that does not run back, no submission or status query for the id reaches the API |
| `OAuthLaws.ReceiptsAreBacked` | client/relay/internal/containerruntime/oauth.go:91-247 | over every run each receipt but that of an expired session is backed by its own API call, between taking and releasing its lease |
| `OAuthLaws.FlowIsKeptOrClosed` | client/relay/internal/containerruntime/oauth.go:116-156 | a flow the API opened is stored or closed again if and only if it is acceptable and an id was drawn |
| `OAuthLaws.OpenFlowExample` | client/relay/internal/containerruntime/oauth.go:116-156 | a flow without a drawn id, and one that cannot be shown: both stay open |
| `Catalog.FilterVisible` | client/relay/internal/catalog/catalog.go:346-367 | exactly the visible entries in order when all have distinct identifiers, else the first fault |
| `ActivationAnswers.VisibleKeeps` | client/relay/internal/catalog/catalog.go:346-367 | every entry is kept in its place, unless it is hidden |
| `ActivationAnswers.HiddenExactly` | client/relay/internal/catalog/catalog.go:346-367 | hidden is the word "hide" in any mixture of cases |
| `ActivationAnswers.IdentifierExactly` | client/relay/internal/catalog/catalog.go:369-376 | a model has no identifier if and only if slug and id are missing or blank; the slug comes first |
| `AppServer.HasCodexHome` | client/relay/internal/appserver/appserver.go:92-114 | true if and only if the process is an app-server whose environment names one absolute home, the expected one |
| `ActivationAnswers.EligibleExactly` | client/relay/internal/appserver/appserver.go:92-114 | which environments prove a process: one entry sets the home, absolutely, to the expected one, and no other entry sets it |
| `AppServer.SelectForCodexHome` | client/relay/internal/appserver/appserver.go:76-86 | the eligible and the unverifiable candidates, each in order |
| `AppServer.ChosenPartition` | client/relay/internal/appserver/appserver.go:76-86 | no candidate is lost or invented |
| `AppServer.NoneUnverifiable` | client/relay/internal/appserver/appserver.go:76-86 | nothing is unverifiable if and only if every candidate is eligible |
| `AppServer.Restart` | client/relay/internal/appserver/appserver.go:153-168 | every process is tried, and there is no error if and only if all were signalled |
| `Activation.Store.AtomicWrite` | client/relay/internal/catalog/catalog.go:378-408 | write then rename, with the backup and every way to fail |
| `Activation.Store.MarkPending` | client/relay/internal/catalog/catalog.go:410-412 | pending afterwards if and only if it was before, or the path was free and the file was created; a reported success that is not pending means the path holds no regular file |
| `Activation.Store.Refresh` | client/relay/internal/catalog/catalog.go:209-229 | the files after a refresh, and exactly when it reports changed or unchanged |
| `Activation.Store.ApplyWhileQuiesced` | client/relay/internal/activation/activation.go:26-56 | the marker after an activation, and exactly when it reports pending, an error or the restarted processes |
| `Activation.StepHonest` | client/relay/internal/catalog/catalog.go:213-229 | a step keeps "no marker means the catalog on disk is in force" if and only if the marker follows the write, or the catalog in force was rewritten |
| `Activation.RunHonest` | client/relay/internal/activation/activation.go:26-56 | so over every run in which each write is followed by its marker |
| `Activation.ClearedOnlyByRestart` | client/relay/internal/activation/activation.go:26-56 | the marker goes only when every candidate was eligible and signalled |
| `ActivationAnswers.SettledExactly` | client/relay/internal/activation/activation.go:26-56 | a pending activation is settled if and only if every candidate is proven and signalled and the marker can be cleared; then the catalog on disk is in force |
| `ActivationAnswers.NothingPending` | client/relay/internal/activation/activation.go:26-56 | without a pending marker an activation does nothing |
| `ActivationAnswers.ReplacedExactly` | client/relay/internal/catalog/catalog.go:209-229 | exactly when a refresh changes the catalog, what it then holds, and that the backup holds what was there |
| `ActivationAnswers.NewCatalogTakesEffect` | client/relay/internal/catalog/catalog.go:209-229 | a refreshed and marked catalog that is activated is the one in force |
| `Activation.LostMarkerIsNeverRepaired` | client/relay/internal/catalog/catalog.go:213-229 | after a failed marker write no run with the same upstream catalog restarts anything or restores the marker |
| `Activation.LostMarkerExample` | client/relay/internal/catalog/catalog.go:213-229 | a concrete run in which the promise fails |
| `RecoveryLaws.ReleaseRevokes` | client/relay/internal/handoff/removal_journal.go:476-505 | releasing changes the record, so the gate closes; and exactly when the ordinary removal gate stays closed |
| `RecoveryLaws.StepKeepsInv` | client/relay/cmd/opencodex-relayctl/main.go:1271-1483 | every step of the command or of another writer keeps the invariant |
| `RecoveryLaws.ReleaseIsBound` | client/relay/cmd/opencodex-relayctl/main.go:1407-1483 | in every run the token is released only under the lock, for the prepared record, at the committed or captured generation, with no other write since |
| `RecoveryLaws.FinishedMeansReleased` | client/relay/cmd/opencodex-relayctl/main.go:1346-1405 | the command succeeds only by releasing; `CommandCompletes` says when it does |
| `RecoveryCompletion.JournalWitness` | client/relay/internal/routing/removal_recovery_witness.go:136-194 | with a journal, exactly which disks give a witness, and of which kind |
| `RecoveryCompletion.StableWitness` | client/relay/internal/routing/removal_recovery_witness.go:136-194 | a stable witness is exactly what a bound, stable, journal-free disk gives |
| `RecoveryCompletion.CommandCompletes` | client/relay/cmd/opencodex-relayctl/main.go:1271-1483 | a command alone whose steps succeed ends with the record released if and only if its start is completable; else it fails and the record stays |
| `RecoveryLaws.DriftIsFinal` | client/relay/internal/routing/removal_recovery_witness.go:136-194 | once another writer has raised the generation, no continuation releases the token |
| `RecoveryLaws.DriftStopsRecovery` | client/relay/cmd/opencodex-relayctl/main.go:1179-1223 | where it is checked, another record or generation stops the command and nothing is written |
| `RecoveryLaws.StrayWriterIsNotSeen` | client/relay/internal/handoff/removal_journal.go:476-505 | a writer without the lock can exchange the record after the last comparison, and that record is then released |
| `RecoveryLaws.StrayWriterRun` | client/relay/cmd/opencodex-relayctl/main.go:1271-1483 | a run from the start that reaches this point, with the wrong record released |
| `RelayConfig.ApplySchedulerDefaults` | client/relay/internal/config/config.go:1021-1051 | the field-by-field defaults are the specified ones |
| `RelayConfig.Draft.ApplyDefaults` | client/relay/internal/config/config.go:1053-1064 | the receiver afterwards is the defaulted configuration |
| `RelayConfig.CompareArtifacts` | client/relay/internal/config/config.go:914-931 | every artifact of one catalog is apart from every artifact of another |
| `RelayConfig.ValidateCatalogArtifactSeparation` | client/relay/internal/config/config.go:908-936 | the nested loops accept if and only if all catalogs are pairwise apart |
| `RelayConfig.DefaultsTwice` | client/relay/internal/config/config.go:1021-1064 | defaulting is idempotent |
| `RelayConfig.DefaultsKeepValidity` | client/relay/internal/config/config.go:614-833 | defaulting keeps validity, and gives it only to a derived configuration without an owner |
| `RelayConfig.LocalDerivationSucceeds` | client/relay/internal/config/config.go:371-401 | the local derivation succeeds if and only if the profile is enrolled and the explicit external configuration is valid: its second check never fails |
| `RelayConfig.LocalDerivationCarries` | client/relay/internal/config/config.go:371-401 | it carries the local endpoint and catalog, no credentials and no other profile, and derives no further |
| `RelayConfig.AppleDerivationSucceeds` | client/relay/internal/config/config.go:403-430 | the same for the Apple container profile |
| `RelayConfig.AppleDerivationCarries` | client/relay/internal/config/config.go:403-430 | it carries the fixed endpoint, the container catalog and key, and no other profile |
| `RelayConfig.CatalogsDiffer` | client/relay/internal/config/config.go:821-832 | the catalogs of a valid durable configuration are pairwise different |
| `RelayConfig.WriteThenLoad` | client/relay/internal/config/config.go:542-601 | what is written loads back with its defaults, unless it is derived: then it never loads |
| `RelayConfigAnswers.DefaultIsValid` | client/relay/internal/config/config.go:459-489 | the default configuration is valid if and only if the gateway is canonical and secure and the credential source usable; and the default limits |
| `RelayConfigAnswers.LimitsExactly` | client/relay/internal/config/config.go:614-833 | which scheduler limits a valid configuration may be given |
| `RelayConfigAnswers.ListenersExactly` | client/relay/internal/config/config.go:614-833 | which listeners: numeric loopback addresses that differ |
| `RelayConfigAnswers.LoopbackExactly` | client/relay/internal/config/config.go:994-1012 | what a loopback listener is |
| `RelayConfigAnswers.InteractiveFollows` | client/relay/internal/config/config.go:1021-1051 | the default interactive listener is on the loopback host of the primary one |
| `RelayConfigAnswers.GatewayExactly` | client/relay/internal/config/config.go:630-685 | which gateway URL and credentials |
| `RelayConfigAnswers.EgressIsSafe` | client/relay/internal/config/config.go:614-833 | so in every valid configuration Cloudflare credentials go only over HTTPS, plain HTTP is acknowledged, and local modes keep to their endpoints |
| `RelayConfigAnswers.ModesExactly` | client/relay/internal/config/config.go:614-833 | which websocket and model modes |
| `RelayConfigAnswers.RefreshExactly` | client/relay/internal/config/config.go:603-833 | which refresh intervals, and when the probe |
| `RelayConfigAnswers.OwnerExactly` | client/relay/internal/config/config.go:614-833 | which catalog owner, by mode and derivation |
| `RelayConfigAnswers.DevelopmentExactly` | client/relay/internal/config/config.go:614-833 | when a production configuration is a development one |
| `RelayConfigAnswers.LocalEnrolmentExactly` | client/relay/internal/config/config.go:837-864 | which local profile may be enrolled |
| `RelayConfigAnswers.AppleEnrolmentExactly` | client/relay/internal/config/config.go:866-906 | which Apple container profile may be enrolled |
| `Handoff.ValidateHandoffResultOwnership` | client/relay/cmd/opencodex-relayctl/main.go:1810-1848 | the candidate loop computes the specified ownership |
| `Handoff.OwnershipIsExclusive` | client/relay/cmd/opencodex-relayctl/main.go:1810-1848 | native, external and local each hold if and only if their own validation does, and "matches multiple" is unreachable |
| `Handoff.NotManagedForBoth` | client/relay/cmd/opencodex-relayctl/main.go:1828-1848 | no home is managed for both profiles |
| `Handoff.LoadedProfileIsProven` | client/relay/cmd/opencodex-relayctl/main.go:1820-1826 | for a loaded configuration the local profile is always derivable |
| `Handoff.EnabledIsExternal` | client/relay/cmd/opencodex-relayctl/main.go:1810-1848 | after enabling the external profile the answer is external |
| `Handoff.EnabledIsLocal` | client/relay/cmd/opencodex-relayctl/main.go:1810-1848 | after enabling the local profile the answer is local |
| `Handoff.DisabledIsNative` | client/relay/cmd/opencodex-relayctl/main.go:1810-1848 | after enabling and disabling the answer is native |
| `Handoff.NativeRoundTrip` | client/relay/cmd/opencodex-relayctl/main.go:1810-1848 | every native home can be enabled for a profile its files carry, is then owned by it, can be disabled and is native again |
| `Upstream.Split` | tools/opencodex_upstream.py:47-47 | a recognised version is its three strict numbers joined by dots |
| `Upstream.SplitIsComplete` | tools/opencodex_upstream.py:47-47 | and every such text is recognised, with those parts |
| `Upstream.VersionInjective` | tools/opencodex_upstream.py:120-130 | two version texts with the same tuple are the same text |
| `UpstreamOrder.VersionOfText` | tools/opencodex_upstream.py:120-130 | a text is a version if and only if it joins three numbers below 2^32 without leading zeros, and then it is those |
| `UpstreamOrder.NumberOrder` | tools/opencodex_upstream.py:120-130 | such numbers compare as their digits do: by length, then at the first difference |
| `UpstreamOrder.VersionOrder` | tools/opencodex_upstream.py:120-130 | versions compare as their texts do, part by part, the major part first |
| `Upstream.ChooseRelease` | tools/opencodex_upstream.py:342-366 | the maximum if and only if there is a candidate and none is at fault; no candidate, or the first fault, otherwise |
| `UpstreamOrder.CandidatesExactly` | tools/opencodex_upstream.py:342-366 | the candidates are exactly the rows that publish a stable strict version |
| `UpstreamOrder.NothingHigher` | tools/opencodex_upstream.py:342-366 | the maximum is published and no published release is above it |
| `Upstream.MaximumIsUnique` | tools/opencodex_upstream.py:342-366 | there is only one maximum |
| `UpstreamLock.Detect` | tools/opencodex_upstream.py:483-568 | an invalid lock, an empty listing and the first fault of a listing are reported as such; otherwise the decision is taken for the unique maximum |
| `UpstreamLock.CandidateIsValid` | tools/opencodex_upstream.py:551-560 | the candidate always passes the lock check that follows |
| `UpstreamLock.DetectAnswers` | tools/opencodex_upstream.py:483-568 | exactly when the answer is downgrade, up to date, update, a refused artifact or a changed identity, for every registry |
| `UpstreamOrder.DetectWithoutArtifact` | tools/opencodex_upstream.py:483-568 | the answers for an invalid lock, a release that is not verified, and an artifact that is awaited or refused |
| `UpstreamLock.DetectedIsAdmitted` | tools/opencodex_upstream.py:599-616 | every candidate that is found, against whatever registry, is admitted on the same lock |
| `UpstreamLock.PublicOrigin` | tools/opencodex_upstream.py:162-177 | every registry for which provenance is verified has the origin the lock check allows |
| `UpstreamLock.ChainIncreases` | tools/opencodex_upstream.py:599-616 | along every chain of applied locks (major, minor, patch, image revision) strictly increases |
| `UpstreamLock.SameVersionSameIdentity` | tools/opencodex_upstream.py:593-616 | two locks of one chain with the same version agree on every upstream field, and their image revisions count the applications between |
| `UpstreamLock.NoLockTwice` | tools/opencodex_upstream.py:599-616 | no lock occurs twice and none goes back |
| `UpstreamOrder.RepackageIsAdmitted` | tools/opencodex_upstream.py:599-616 | every valid lock can be repackaged until its image revision is at its limit |
| `UpstreamOrder.NewVersionStartsAtOne` | tools/opencodex_upstream.py:599-616 | along a chain every new version starts at image revision one, above the one before |
| `UpstreamLock.Tree.Apply` | tools/opencodex_upstream.py:599-636 | all three files after an admitted, refused or interrupted application |
| `UpstreamLock.InterruptedApplication` | tools/opencodex_upstream.py:634-636 | a consistent tree stays so if and only if nothing or everything was written, or the version was only repackaged |
| `UpstreamLock.RepeatedApplication` | tools/opencodex_upstream.py:599-636 | repeating an application is accepted if and only if the first had written nothing |

## Left out

- HTTP, TLS, Keychain access, signing and the Apple Container command line: behaviour of other systems. The shape checks of their JSON answers are conjunctions of field tests.
- Legacy migration, which deletes three known root keys behind a backup; the fingerprints by which a native-repair inspection is compared with a later one; and the byte-for-byte backup it makes.
- The removal dispatch as a whole, the routing controller's own transactions and the handoff executions: the model takes the recovery they perform as one step that leaves any disk behind.
- TOML, JSON and UTF-8 decoding, SHA-256, URL and duration parsing, path cleaning and symbolic links are uninterpreted functions; JSON of one record is taken to determine the record.
- CodexConfigLaws.RemoveUndoesEnable: this and the other laws on text are stated for namespaces with the marker spelling `WellFormed`; `CanonicalIsWellFormed` shows that both compiled-in ones have it.
- The Codex configuration and the side profiles are taken to be different files, as their fixed names make them.
- File permissions other than owner-only profiles, fsync and temporary names; a file write either replaces the file or leaves it, except where the model lists more outcomes.
- Lifecycle and Recovery are step systems over values: the observation fields and the pointer to the allowed generation are components of the state, not heap objects.
- RecoveryLaws.ReleaseIsBound: other writers change routing state and the cleanup record only while they hold the routing lock; `StrayWriterIsNotSeen` shows what a writer without it can do. The live status and the ownership proof before the release are one decision of the environment.
- Recovery without a closed removal gate, which involves no token.
- OAuthLaws.EveryRunIsSound: one manager; other processes that write the session directory are outside the model. Error values of file operations are merged into a few classes.
- RelayConfig.Draft.ApplyDefaults: a label is a datatype with one constructor for all unknown texts, and `Validate` is modelled as accepting or refusing, not by its messages.
- AppServer.HasCodexHome: whether a command line is that of an app-server is a parameter, and so is the list of candidates.
- UpstreamLock.Detect: the GitHub and npm answers come already checked for their own syntax; paging of the release listing is not modelled. The registry is the one both the network client and the lock check are given, as the command line does it; the upper-case spelling of a URL scheme is not folded.
- ClosureDigest.DigestIdentifiesTree: the tree is a value, so changes to the files during the walk are outside the model.
- Sse.Parse: works on decoded text; the JSON decoder of a frame is a parameter.
- LocalRelayLaws.LocalRelayBecomesNative: exact for files with clean seams only; `DirtySeamKeyExample` shows what other seams can do.
