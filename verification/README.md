# Sandbox manager and daemon: a verified model

This project models the stateful core of the sandbox manager and the sandbox daemon in
Dafny and proves what that core is relied on for. `dafny verify dfyconfig.toml` checks all
of it.

| area | modules | main results |
|---|---|---|
| Rendering an exported layer delta into a host directory | `DestTree`, `ExportPlan`, `ExportApply`, `ExportEffect`, `ExportOverlay`, `ExportRerun` | the three passes equal a per-path lookup, for every accepted stream, and an order-free overlay exactly for those without collisions; every entry is planned as exactly what its name and header ask for, and winners survive with them; rendering twice is rendering once; exactly when a second rendering writes nothing |
| The resource ring file and its cache | `RingCodec`, `RingView`, `Ring`, `RingStore`, `RingCoherence`, `Sampler` | a byte-level refinement to "the last 1023 samples"; torn appends; single-byte damage is always seen; cache transparency and its exact condition; removal against samplers |
| Diagnostic captures | `Diagnostics`, `DiagnosticRuns`, `Artifact` | one writer, cooldown, soundness and completeness of sustained windows over all interleavings, with the exact interval and classes; the bounded artifact |
| Daemon admission and shutdown | `Admission`, `Lifecycle`, `ShutdownPaths` | permits are conserved and the runtime is shut down last, in every run; every run can be continued to the exit |
| The sandbox registry | `Registry` | crash atomicity, durability over all runs, what each mutation files, reconciliation |
| The use-tree expander | `UseTree`, `UseTreePrint` | round trip of every printed use tree to its leaf paths |
| Line scanner and configuration merge | `Lines`, `ConfigMerge` | both against simple specifications |

`Orders` holds the shared value types, Rust's orders on strings and string lists, a sort, and
what it means to select or count elements.

Conventions. Machine integers are bounded integer types, and saturation, wrap-around and
casts are written out. Objects the program updates in place are classes whose methods are
proved against functions of the old state; the theorems are about those functions.
Concurrent parts are transition systems over their atomic steps, and results hold for every
state of every run. Strings are sequences of code points (bytes where a limit counts bytes).
Clocks, file contents, the umask and the success of a write are parameters.

Where the code does not do what its comments or a first reading suggest, the model follows
the code and the theorem says exactly when the expected law holds:

- A torn append to a full ring is noticed if and only if the torn sample is newer than the
  second oldest record (`RingView.TornReads`). Equal times hide it
  (`Ring.EqualTimesHideTear`), and so does a clock that has stepped back that far.
- The cache is transparent for all files with a given header exactly when it is coherent
  (`RingCoherence.TransparentExactlyWhenCoherent`). Every header the store writes is; a
  foreign one with a valid checksum need not be.
- Skipping unchanged files relies on the stamp that `write_file` leaves. A tar time of 2^63
  or more is stamped 0, so such a file is rewritten every time
  (`ExportRerun.SecondRunSkipsExactly`, `ExportRerun.LateStampIsWrittenAgain`).
- A delta with distinct content paths renders its order-free overlay if and only if no file
  or symlink path is above another content path (`ExportOverlay.OverlayExactly`; an input
  that fails is `ExportOverlay.FileAboveFileIsNoOverlay`). The lookup that holds for every
  accepted stream takes the last deciding entry (`ExportOverlay.AcceptedStreamSettles`).
  Rendering again is idempotent for all of them.
- The guard against a stale capture number never takes effect (`DiagnosticRuns.FinishIsNeverStale`).
- `complete_bytes` counts an oversized line as one byte (`Lines.OversizedLineIsMiscounted`),
  so it is the length of the complete lines if and only if there is no such line
  (`Lines.CountsCompleteBytes`).
- A registry mutation whose snapshot cannot be written answers an error but keeps its change
  in memory (`Registry.UnwrittenCreationIsAnsweredWithError`); exactly when an error leaves
  memory alone is `Registry.ErrorKeepsMemoryExactly`.

## Model

| member | source | states |
|---|---|---|
| `ExportPlan.ValidatedComponents` | crates/sandbox-manager/src/export_apply.rs:355-383 | Answers for every name, in the order of the checks, which error refuses it, or its significant components. |
| `ExportPlan.AcceptedComponents` | crates/sandbox-manager/src/export_apply.rs:355-383 | Every component of an accepted name is non-trivial, not `..`, and free of `/` and NUL, and only the last may be reserved. |
| `ExportPlan.AcceptedNames` | crates/sandbox-manager/src/export_apply.rs:355-383 | Exactly which names are accepted, and as which components: relative, without NUL and `..`, with some name and no marker prefix before the last component. |
| `ExportPlan.SplitExactly` | crates/sandbox-manager/src/export_apply.rs:362-373 | The parts of a name are the one list of slash-free parts that joins to it. |
| `ExportPlan.SignificantSelects` | crates/sandbox-manager/src/export_apply.rs:362-373 | The components are, in order, exactly the parts other than the empty one and the single dot. |
| `ExportPlan.ComponentsRoundTrip` | crates/sandbox-manager/src/export_apply.rs:355-383 | Joining any safe components with `/` and validating the name gives the components back, or `ReservedComponent` exactly when a reserved one is not last. |
| `ExportPlan.PlannedPathsAreSafe` | crates/sandbox-manager/src/export_apply.rs:283-351 | No path of an accepted entry, content or marker, has an empty, `.`, `..`, `/`-bearing, NUL-bearing or `.wh.` component. |
| `ExportPlan.PlannedExactly` | crates/sandbox-manager/src/export_apply.rs:283-351 | An entry is planned as `p` if and only if its name, kind and header fields ask for `p`: the low twelve mode bits, its own time and size, a readable link target; a hard link never is. |
| `ExportPlan.AcceptedExactly` | crates/sandbox-manager/src/export_apply.rs:252-351 | A stream is accepted if and only if it is within the cap and each of its entries asks for something. |
| `ExportPlan.ContentRoundTrip` | crates/sandbox-manager/src/export_apply.rs:283-351 | Every safe path can be asked for by its own name: the entry is planned by its kind with the fields of its header, or refused with exactly the error given; hard links always. |
| `ExportPlan.MarkersWithoutTarget` | crates/sandbox-manager/src/export_apply.rs:295-319 | The opaque marker of the root, and whiteouts of nothing, a dot, dot-dot or another marker, are refused, each with its error. |
| `ExportPlan.WhiteoutRoundTrip` | crates/sandbox-manager/src/export_apply.rs:304-319 | Every safe path can be whited out: the entry named by its `.wh.` encoding is planned as the deletion of exactly that path. |
| `ExportPlan.OpaqueRoundTrip` | crates/sandbox-manager/src/export_apply.rs:295-303 | Every safe path can be made opaque: the entry named by its opaque marker is planned as the clear of exactly that path. |
| `ExportPlan.PlanEntries` | crates/sandbox-manager/src/export_apply.rs:264-277 | A stream is planned if and only if it is within the cap and each entry asks for something; each entry is planned as exactly what its name, kind, mode, time, size and link ask for; otherwise the error is that of the first failing entry, the cap included; markers are collected in stream order. |
| `ExportPlan.PlanStream` | crates/sandbox-manager/src/export_apply.rs:252-281 | The same, with both marker lists sorted permutations of the markers in the stream. |
| `ExportPlan.MarkersListed` | crates/sandbox-manager/src/export_apply.rs:295-319 | A path is in a marker list exactly when the stream has that marker. |
| `ExportPlan.MarkersCounted` | crates/sandbox-manager/src/export_apply.rs:295-319 | Every marker is listed as often as the stream holds it. |
| `ExportApply.Destination.WalkToParent` | crates/sandbox-manager/src/export_apply.rs:514-547 | With `create`, exactly the missing or blocked ancestors become directories and nothing else changes; without it nothing changes, and it reaches the parent exactly when that is a directory. |
| `ExportApply.Destination.EnsureDirectory` | crates/sandbox-manager/src/export_apply.rs:549-571 | The path is a directory with exactly the mode; what was below an existing directory stays. |
| `ExportApply.Destination.ClearDirectory` | crates/sandbox-manager/src/export_apply.rs:576-587 | The path is an empty directory with mode 0755 below real directories; all else is unchanged. |
| `ExportApply.Destination.RemoveValidatedTarget` | crates/sandbox-manager/src/export_apply.rs:589-594 | Exactly what was at or below the target is gone, also when the walk stops early. |
| `ExportApply.Destination.RemoveRecursiveAt` | crates/sandbox-manager/src/export_apply.rs:596-616 | The child-by-child recursion ends and removes exactly the subtree. |
| `ExportApply.Destination.RemoveChildren` | crates/sandbox-manager/src/export_apply.rs:583-585 | Removing the listed children one after the other leaves the directory empty and everything outside it alone. |
| `ExportApply.Destination.WriteFile` | crates/sandbox-manager/src/export_apply.rs:679-714 | The new file has the bytes, the mode and the second-granular stamp, 0 where the stamp does not fit; nothing else changes. |
| `ExportApply.Destination.ApplyFile` | crates/sandbox-manager/src/export_apply.rs:411-461 | The file is skipped exactly when size, stamp and bytes agree, else replaced; the matching counter grows. |
| `ExportApply.Destination.ApplyContent` | crates/sandbox-manager/src/export_apply.rs:385-480 | The tree and the counters after all content entries in stream order. |
| `ExportApply.Destination.ApplyDirDelta` | crates/sandbox-manager/src/export_apply.rs:127-153 | A rejected stream leaves the destination untouched; an accepted one leaves the three passes and their counters. |
| `ExportApply.PlanPathsNonEmpty` | crates/sandbox-manager/src/export_apply.rs:252-351 | No path of an accepted plan is the destination root. |
| `ExportEffect.Locality` | crates/sandbox-manager/src/export_apply.rs:127-153 | For every delta and destination, what the three passes leave at a path depends only on what was at that path, through a fixed list of acts. |
| `ExportEffect.RunForgetsOrFixes` | crates/sandbox-manager/src/export_apply.rs:385-480 | The acts at a path either forget what was there or end on a node that each of them leaves alone. |
| `ExportEffect.RenderingTwiceIsRenderingOnce` | crates/sandbox-manager/src/export_apply.rs:127-153 | Idempotence for every accepted delta, well-formed or not, of kinds, bytes, targets, modes and stamps. |
| `ExportOverlay.ClearsDenote` | crates/sandbox-manager/src/export_apply.rs:576-587 | Sorted opaque clears equal their order-free meaning: empty at a marker, masked below, directories on the way. |
| `ExportOverlay.MarkersDenote` | crates/sandbox-manager/src/export_apply.rs:142-150 | Clears and whiteouts together equal the order-free lookup `Base`. |
| `ExportOverlay.ContentDenotes` | crates/sandbox-manager/src/export_apply.rs:385-480 | The content pass of a well-formed delta equals the order-free lookup: the entry wins, nothing below a file or symlink entry, directories on the way. |
| `ExportOverlay.PassesRenderOverlay` | crates/sandbox-manager/src/export_apply.rs:127-153 | Overlay refinement: for every well-formed delta and every destination the three passes leave at each path exactly what the overlay lookup gives. |
| `ExportOverlay.AcceptedStreamRendersOverlay` | crates/sandbox-manager/src/export_apply.rs:127-153 | The same in terms of the entries of an accepted stream, whatever the order of its markers. |
| `ExportOverlay.ContentSettles` | crates/sandbox-manager/src/export_apply.rs:385-480 | The content pass of any delta equals the lookup: the last entry at the path or, a file or symlink, above it decides, then any directory implied after it. |
| `ExportOverlay.PassesSettle` | crates/sandbox-manager/src/export_apply.rs:127-153 | The per-path lookup for every delta, well-formed or not, and every destination. |
| `ExportOverlay.AcceptedStreamSettles` | crates/sandbox-manager/src/export_apply.rs:127-153 | The same in terms of the entries of any accepted stream. |
| `ExportOverlay.EntryBelowFileIsNoOverlay` | crates/sandbox-manager/src/export_apply.rs:514-547 | A file followed by an entry below it leaves a directory where the overlay has the file. |
| `ExportOverlay.FileAboveFileIsNoOverlay` | crates/sandbox-manager/src/export_apply.rs:514-547 | For instance file `a`, then file `a/b`. |
| `ExportOverlay.OverlayExactly` | crates/sandbox-manager/src/export_apply.rs:127-153 | The exact condition: for every destination and all markers, a delta with distinct content paths leaves its order-free overlay at every path if and only if no file or symlink path is above another content path. |
| `ExportOverlay.AcceptedStreamIsOverlayExactly` | crates/sandbox-manager/src/export_apply.rs:127-153 | The same in terms of the entries of an accepted stream. |
| `ExportOverlay.CollisionShows` | crates/sandbox-manager/src/export_apply.rs:385-480 | Whichever entries collide and in whichever order, one path shows it on every destination. |
| `ExportOverlay.WinnersSurvive` | crates/sandbox-manager/src/export_apply.rs:404-461 | A file entry that no later entry replaces is there at the end with its bytes and stamp, whatever markers there are, and with its mode unless it was skipped; for ill-formed deltas too. |
| `ExportOverlay.AcceptedWinnersSurvive` | crates/sandbox-manager/src/export_apply.rs:127-153 | The same for an accepted stream, in the fields of its entry: the bytes of the entry, the time of its header (0 from 2^63 on) and, unless skipped, the permission bits of its header, at the components of its name. |
| `ExportOverlay.AcceptedLinksSurvive` | crates/sandbox-manager/src/export_apply.rs:462-475 | A symlink entry that no later entry replaces is there with the target of the entry. |
| `ExportOverlay.AcceptedDirectoriesSurvive` | crates/sandbox-manager/src/export_apply.rs:404-410 | A directory entry that no later entry decides is there with the permission bits of its header, whatever comes below it. |
| `ExportOverlay.WhiteoutsHold` | crates/sandbox-manager/src/export_apply.rs:589-594 | Nothing is left at or below a whiteout target where no content entry puts anything. |
| `ExportOverlay.ClearsHold` | crates/sandbox-manager/src/export_apply.rs:576-587 | An opaque directory is there with mode 0755, and nothing of the destination below it. |
| `ExportOverlay.OthersUntouched` | crates/sandbox-manager/src/export_apply.rs:127-153 | What no marker and no content entry has to do with stays as it was. |
| `ExportOverlay.AcceptedStreamIsIdempotent` | crates/sandbox-manager/src/export_apply.rs:127-153 | Rendering any accepted stream again changes no node. |
| `ExportRerun.CountsConserved` | crates/sandbox-manager/src/export_apply.rs:404-475 | Every file entry is counted once, as written or skipped, every symlink once, and bytes only with a file. |
| `ExportRerun.ReportedStats` | crates/sandbox-manager/src/export_apply.rs:127-153 | The counters of every rendering: one deletion per whiteout, one clear per opaque marker, one symlink per symlink entry, one file written or skipped per file entry, and the bytes of exactly the files not skipped. |
| `ExportRerun.NothingWrittenIffAllSkipped` | crates/sandbox-manager/src/export_apply.rs:411-461 | No file is written if and only if each file entry finds its own content. |
| `ExportRerun.SecondRunSkips` | crates/sandbox-manager/src/export_apply.rs:634-677 | For well-formed deltas: the second rendering writes no file if and only if each file entry has a true size, a stamp that fits and no marker touching its path; it then writes no byte and counts every file as skipped. |
| `ExportRerun.SecondRunSkipsExactly` | crates/sandbox-manager/src/export_apply.rs:634-677 | For every delta, well-formed or not: the second rendering writes no file if and only if in addition no other entry takes the place of a file entry, except one that writes the very same file there. |
| `ExportRerun.LateStampIsWrittenAgain` | crates/sandbox-manager/src/export_apply.rs:679-714 | A file with a tar time of 2^63 is written again by the second run. |
| `RingCodec.LeRoundTrip` | crates/sandbox-manager/src/resource_ring.rs:463-477 | Every value that fits is read back from its little-endian bytes. |
| `RingCodec.FromLeRoundTrip` | crates/sandbox-manager/src/resource_ring.rs:463-477 | Every byte sequence is the little-endian form of the value read from it. |
| `RingCodec.PutLe` | crates/sandbox-manager/src/resource_ring.rs:463-469 | Writes exactly the value's bytes at the offset and leaves the rest of the buffer. |
| `RingCodec.ComputeChecksum` | crates/sandbox-manager/src/resource_ring.rs:457-461 | The fold computes 64-bit FNV-1a. |
| `RingCodec.KnownChecksums` | crates/sandbox-manager/src/resource_ring.rs:457-461 | The published FNV-1a values of the empty string and of `a`. |
| `RingCodec.PrimeIsInvertible` | crates/sandbox-manager/src/resource_ring.rs:457-461 | Multiplication by the FNV prime modulo 2^64 is undone by an explicit inverse. |
| `RingCodec.FnvStepInjective` | crates/sandbox-manager/src/resource_ring.rs:457-461 | Each checksum step is injective in the hash and in the byte. |
| `RingCodec.FnvDetectsOneByte` | crates/sandbox-manager/src/resource_ring.rs:457-461 | Changing any one byte changes the checksum. |
| `RingCodec.RecordRoundTrip` | crates/sandbox-manager/src/resource_ring.rs:415-455 | Every sample, with any time and any counters absent, is decoded from its record. |
| `RingCodec.OneByteChangeIsRefused` | crates/sandbox-manager/src/resource_ring.rs:438-461 | No intact record decodes after a change to any single one of its bytes. |
| `RingCodec.BuildRecord` | crates/sandbox-manager/src/resource_ring.rs:415-436 | Filling the buffer field by field gives the record that decodes to the sample. |
| `RingCodec.HeaderRoundTrip` | crates/sandbox-manager/src/resource_ring.rs:365-413 | A file that starts with an encoded valid header is read with that header. |
| `RingCodec.HeaderExactly` | crates/sandbox-manager/src/resource_ring.rs:365-398 | A file of the right size is read with a header if and only if the header is valid and the first 48 bytes are its encoding. |
| `RingCodec.OneHeaderByteChangeIsRefused` | crates/sandbox-manager/src/resource_ring.rs:365-398 | A valid header is refused after a change to any one of its 48 checked bytes. |
| `RingView.AppendExtends` | crates/sandbox-manager/src/resource_ring.rs:156-167 | An append adds its sample as newest and drops the oldest of a full ring. |
| `RingView.AppendedAllHolds` | crates/sandbox-manager/src/resource_ring.rs:156-167 | After any appends to an empty ring it holds exactly the last 1023 samples in order. |
| `RingView.HeaderCountsAppends` | crates/sandbox-manager/src/resource_ring.rs:156-167 | The header holds the number of appends modulo 1023, capped at 1023, and saturating. |
| `RingView.ReadRecords` | crates/sandbox-manager/src/resource_ring.rs:194-252 | The loop over the slots answers the decodable samples in the window, the last of at most 512, and which error if any; which samples those are is `WindowSelects` and `WindowIsSuffix`. |
| `RingView.CleanReadHolds` | crates/sandbox-manager/src/resource_ring.rs:194-252 | A read without error found exactly what the ring holds, in time order. |
| `RingView.WindowEndsWithNewest` | crates/sandbox-manager/src/resource_ring.rs:238-245 | A non-empty answer about ordered samples ends with the newest one, and a window that is not negative has an answer. |
| `RingView.WindowSelects` | crates/sandbox-manager/src/resource_ring.rs:238-245 | For samples in any order: the answer lists, in order, exactly those not older than the newest one less the window, or the last 512 of those. |
| `RingView.WindowIsSuffix` | crates/sandbox-manager/src/resource_ring.rs:238-245 | For samples in time order: the answer is the samples from the first of the last 512 that lies in the window on. |
| `RingView.ViewsReadBack` | crates/sandbox-manager/src/resource_ring.rs:194-301 | After any appends a window read answers, of the last 1023 samples, those from the first of the last 512 that lies in the window on, with an error if and only if their times are out of order, and a latest read answers the last one. |
| `RingView.DamageIsReported` | crates/sandbox-manager/src/resource_ring.rs:194-252 | If one record of an ordered ring is unreadable, its slot is reported and the read answers from exactly the others. |
| `RingView.TornReads` | crates/sandbox-manager/src/resource_ring.rs:219-237 | Whatever the times: a torn append is invisible to a ring that is not full; a full ring notices it if and only if the torn sample is newer than the second oldest record, and then answers all but its oldest record; otherwise it reads as if the torn sample were its oldest. |
| `RingView.StrictTimesDetectTears` | crates/sandbox-manager/src/resource_ring.rs:219-237 | With strictly increasing times a tear of a full ring is always noticed. |
| `RingView.TornLatest` | crates/sandbox-manager/src/resource_ring.rs:283-300 | After a torn append a latest read still answers the last committed sample. |
| `Ring.AppendLocked` | crates/sandbox-manager/src/resource_ring.rs:156-167 | The two writes, record first, give the file of a completed append. |
| `Ring.ReadLocked` | crates/sandbox-manager/src/resource_ring.rs:169-252 | The answer and the file left: a damaged header or record, or disorder, resets the ring to an empty one. |
| `Ring.TornIsTornView` | crates/sandbox-manager/src/resource_ring.rs:156-167 | In bytes, the record write changes the next slot and nothing else that is read. |
| `Ring.AppendedIsAppendedView` | crates/sandbox-manager/src/resource_ring.rs:156-167 | In bytes, both writes together append to whatever ring was there, or to a fresh one. |
| `Ring.RunsReadBack` | crates/sandbox-manager/src/resource_ring.rs:156-301 | Ring refinement over all runs, on bytes: after any appends to a missing file the window read answers, of the last 1023 samples, exactly those from the first of the last 512 that lies in the window on, or, if and only if their times are out of order, an error and a reset ring. |
| `Ring.DamagedByteIsReported` | crates/sandbox-manager/src/resource_ring.rs:169-252 | On bytes: after a change to any one byte of any record in use of an ordered ring, the window read names its slot, answers from exactly the others, and resets the ring. |
| `Ring.TornThenAppended` | crates/sandbox-manager/src/resource_ring.rs:156-167 | A torn append followed by a completed one leaves the very file of the completed one alone, for any file to begin with. |
| `Ring.TornRuns` | crates/sandbox-manager/src/resource_ring.rs:156-167 | Over all runs of completed and torn appends, from any file or none: the file is that of the completed ones alone, with at most the last append on top, if that was torn. |
| `Ring.TornRunsReadLatest` | crates/sandbox-manager/src/resource_ring.rs:254-301 | Whatever appends were torn on the way, a latest read answers the last completed one. |
| `Ring.TornFileReads` | crates/sandbox-manager/src/resource_ring.rs:219-300 | The torn-append laws on bytes, for every time of the torn sample, with the file that each read leaves. |
| `Ring.EqualTimesHideTear` | crates/sandbox-manager/src/resource_ring.rs:219-237 | 1023 equal samples and then a torn one that is no newer: the read reports no error and answers the uncommitted sample. |
| `RingStore.CacheIsTransparent` | crates/sandbox-manager/src/resource_ring.rs:72-154 | One operation with the cache gives the files and the reply of the same operation without it, and keeps every cached sample equal to the last committed record. |
| `RingStore.RunsAreCacheTransparent` | crates/sandbox-manager/src/resource_ring.rs:72-154 | The same for every sequence of operations, from any files whose intact headers are coherent. |
| `RingCoherence.TransparentExactlyWhenCoherent` | crates/sandbox-manager/src/resource_ring.rs:95-141 | The exact condition: every file with a given valid header gets the uncached replies in every run if and only if that header is coherent, that is full or with its next slot after its records. |
| `RingCoherence.IncoherentIsExposed` | crates/sandbox-manager/src/resource_ring.rs:95-141 | For every header that is not coherent, a file and a sequence of operations to which the cache gives another reply. |
| `RingStore.ResourceRingStore.AppendSample` | crates/sandbox-manager/src/resource_ring.rs:72-77 | The new files and cache, with the files those of an uncached append. |
| `RingStore.ResourceRingStore.AppendSampleIf` | crates/sandbox-manager/src/resource_ring.rs:79-92 | An ineligible append changes nothing; an eligible one is an append. |
| `RingStore.ResourceRingStore.ReadSamples` | crates/sandbox-manager/src/resource_ring.rs:95-112 | The answer and the files are those without a cache; the cache follows the answer. |
| `RingStore.ResourceRingStore.ReadLatestSample` | crates/sandbox-manager/src/resource_ring.rs:118-141 | The answer and the files are those of an empty cache. |
| `RingStore.ResourceRingStore.RemoveRing` | crates/sandbox-manager/src/resource_ring.rs:143-154 | Neither a file nor a cache entry is left for the sandbox. |
| `Sampler.RemovedStaysRemoved` | crates/sandbox-manager/src/operations/services.rs:142-165 | In every interleaving of samplers, readers and removals: once a removal of a sandbox that is no longer ready has ended, no ring file and no cache entry for it exists in any later state. |
| `Diagnostics.Tracker.PrepareCapture` | crates/sandbox-daemon/src/observability/diagnostics.rs:193-286 | The whole new state and the pending capture of the step. |
| `Diagnostics.CpuHighExactly` | crates/sandbox-daemon/src/observability/diagnostics.rs:457-480 | A sample is above the CPU threshold if and only if time advances, both counters are known and do not go back, and a hundred times the CPU time exceeds the threshold times the elapsed microseconds. |
| `Diagnostics.BusyCoreIsHundred` | crates/sandbox-daemon/src/observability/diagnostics.rs:457-480 | One core busy throughout is exactly a hundred percent. |
| `Diagnostics.Tracker.FinishCapture` | crates/sandbox-daemon/src/observability/diagnostics.rs:322-337 | The whole new state; a stale sequence number changes nothing. |
| `DiagnosticRuns.AtMostOneWriter` | crates/sandbox-daemon/src/observability/diagnostics.rs:115-148 | In every interleaving at most one thread is between prepare and finish, and the slot holds its number. |
| `DiagnosticRuns.FinishIsNeverStale` | crates/sandbox-daemon/src/observability/diagnostics.rs:322-337 | The stale-sequence guard never turns a finish away, not even after the sequence has saturated. |
| `DiagnosticRuns.CountsSuccesses` | crates/sandbox-daemon/src/observability/diagnostics.rs:322-337 | The counter is the number of successful finishes, saturating; the summary is that of the last one; the error is that of the last finish, cut to 512 bytes. |
| `DiagnosticRuns.LateSamplesAreInvisible` | crates/sandbox-daemon/src/observability/diagnostics.rs:203-206 | Deleting all out-of-order samples from the steps of any run leaves a run with times in order, the same captures and the same final state. |
| `DiagnosticRuns.RunIsAfter` | crates/sandbox-daemon/src/observability/diagnostics.rs:115-148 | Every state of a run is determined by the steps before it, each of which was enabled. |
| `DiagnosticRuns.CooldownIsOfLastCapture` | crates/sandbox-daemon/src/observability/diagnostics.rs:264-270 | The cooldown end is always that of the last capture, saturating. |
| `DiagnosticRuns.MayCaptureExactly` | crates/sandbox-daemon/src/observability/diagnostics.rs:254-256 | A sample may start a capture exactly when no thread is writing one and the last one started at least the cooldown earlier. |
| `DiagnosticRuns.CapturesAreApart` | crates/sandbox-daemon/src/observability/diagnostics.rs:193-286 | Any two captures of any run start at least the cooldown apart, saturating. |
| `DiagnosticRuns.CaptureIsSustained` | crates/sandbox-daemon/src/observability/diagnostics.rs:225-320 | Soundness: for every CPU or memory capture there is a sample at least the sustained time earlier since which each advancing sample was above the threshold, by raw times, counters and bytes, and no capture was prepared; the reported interval has the elapsed time, CPU time and share of that stretch; the reported classes are exactly those brought in and then shown by every advancing sample, or, if there are none, all shown in the stretch. |
| `DiagnosticRuns.SustainedIsCaptured` | crates/sandbox-daemon/src/observability/diagnostics.rs:225-320 | Completeness: such a stretch, above the threshold by raw times, counters and bytes, is captured by its next advancing sample, unless a thread is writing or the cooldown runs. |
| `DiagnosticRuns.OldestStretchIsReported` | crates/sandbox-daemon/src/observability/diagnostics.rs:288-320 | A capture reports the elapsed time, CPU time and share of a stretch that opened no later than any other that is long enough, and a memory stretch only if it opened before any such CPU stretch. |
| `DiagnosticRuns.CapturesAreNumbered` | crates/sandbox-daemon/src/observability/diagnostics.rs:265-267 | The captures of any steps carry the numbers 1, 2, 3 and so on, saturating. |
| `DiagnosticRuns.ExitedHolderIsCaptured` | crates/sandbox-daemon/src/observability/diagnostics.rs:238-286 | An exited holder that was not reaped is captured by the next advancing sample, before any window, unless a thread is writing or the cooldown runs, with its own class and the interval since the previous point. |
| `DiagnosticRuns.PreviousSumsUpNewest` | crates/sandbox-daemon/src/observability/diagnostics.rs:193-224 | In every run the previous point sums up the newest samples: their time, the classes of all of them and the highest counter among them. |
| `Artifact.TruncateUtf8` | crates/sandbox-daemon/src/observability/diagnostics.rs:624-633 | The longest prefix within the limit that ends between characters. |
| `Artifact.TruncationKeepsCharacters` | crates/sandbox-daemon/src/observability/diagnostics.rs:624-633 | Of any UTF-8 text truncation leaves the longest run of its first characters that fits, and never part of one. |
| `Artifact.SmallestIsUnique` | crates/sandbox-daemon/src/observability/diagnostics.rs:589-604 | There is only one list of the smallest distinct holders. |
| `Artifact.HolderLtExactly` | crates/sandbox-daemon/src/observability/diagnostics.rs:589-604 | Holders are ordered by the bytes of their id, then by process id. |
| `Artifact.NormalizeWorkspaceHolders` | crates/sandbox-daemon/src/observability/diagnostics.rs:589-604 | The streaming insert-and-pop keeps exactly the 128 smallest distinct bounded holders of the whole input; retained plus omitted is the input length. |
| `Artifact.BuildPayload` | crates/sandbox-daemon/src/observability/diagnostics.rs:497-535 | Ids and holders are aligned, nothing is lost uncounted, and the flag says whether anything was omitted. |
| `Artifact.CaptureArtifact` | crates/sandbox-daemon/src/observability/diagnostics.rs:537-587 | The loop ends; what is published fits the cap and is the largest version that does: the first holders and everything else unchanged; it answers that none fits exactly when none does, and that it was not written exactly when one fits and the write fails; ids and holders stay aligned, retained plus omitted is conserved. |
| `Admission.AdmissionControl.TryAcquire` | crates/sandbox-daemon/src/rpc/runtime.rs:103-109 | A permit is granted exactly while the gate is open and fewer than the limit are out; a closed gate answers that it is closed, a full open one that it is full; available plus outstanding is the limit. |
| `Admission.AdmissionControl.Release` | crates/sandbox-daemon/src/rpc/runtime.rs:94-124 | A dropped permit is available again. |
| `Admission.AdmissionControl.Close` | crates/sandbox-daemon/src/rpc/runtime.rs:111-113 | The gate is closed; permits that are out stay out. |
| `Admission.AdmissionControl.InUse` | crates/sandbox-daemon/src/rpc/runtime.rs:123-125 | Exactly the number of permits that are out. |
| `Lifecycle.NoPermitAfterClose` | crates/sandbox-daemon/src/rpc/lifecycle.rs:219-221 | A closed gate never opens and grants no permit. |
| `Lifecycle.StepConservesPermits` | crates/sandbox-daemon/src/rpc/lifecycle.rs:109-191 | Every step of every task keeps outstanding plus available permits equal to the limit, for both gates. |
| `Lifecycle.StepKeepsOrder` | crates/sandbox-daemon/src/rpc/lifecycle.rs:25-72 | No step undoes what the lifecycle task has achieved, and its phase never goes back. |
| `Lifecycle.RunInvariant` | crates/sandbox-daemon/src/rpc/lifecycle.rs:25-246 | In every state of every run permits are conserved and the shutdown order holds. |
| `Lifecycle.ShutdownIsLast` | crates/sandbox-daemon/src/rpc/lifecycle.rs:25-72 | When the runtime shutdown starts, and from then on, both gates are closed, the token is cancelled, no listener or sampler is alive, every tracked task has ended, so no RPC closure runs, and every permit is back. |
| `Lifecycle.NoDispatchAfterClose` | crates/sandbox-daemon/src/rpc/dispatch.rs:16-19 | Once the blocking gate is closed no RPC request starts its blocking closure any more. |
| `Lifecycle.NoRequestPassesAfterShutdown` | crates/sandbox-daemon/src/rpc/dispatch.rs:16-19 | Once the token is cancelled or the blocking gate closed, no request that was not yet checked passes its shutdown check any more, in any run. |
| `ShutdownPaths.EveryRunCanExit` | crates/sandbox-daemon/src/rpc/lifecycle.rs:25-72 | No reachable state is stuck: every run so far, from starting up to any point of the shutdown, can be continued to one in which the daemon has exited. |
| `Registry.MutationKeepsKeys` | crates/sandbox-manager/src/store.rs:91-244 | A mutation keeps every record under its own id, touches no other record, and answers the record it leaves or removes. |
| `Registry.SnapshotRoundTrip` | crates/sandbox-manager/src/store.rs:33-50 | Loading a snapshot rebuilds exactly the map it was taken of. |
| `Registry.CollectedIsLast` | crates/sandbox-manager/src/store.rs:33-50 | Of a file in which ids repeat, the last record of each id is loaded. |
| `Registry.TakeSnapshot` | crates/sandbox-manager/src/store.rs:257-265 | Every record once, in id order. |
| `Registry.StopsAtOldOrNew` | crates/sandbox-manager/src/store.rs:269-288 | Wherever the snapshot write stops, a new process loads the old records or the new ones, the new ones exactly when the write completed. |
| `Registry.SandboxStore.Load` | crates/sandbox-manager/src/store.rs:33-50 | The store starts from what the file holds. |
| `Registry.Open` | crates/sandbox-manager/src/store.rs:33-50 | Opening is refused exactly when the snapshot cannot be parsed; a missing file is an empty registry. |
| `Registry.SandboxStore.Persist` | crates/sandbox-manager/src/store.rs:257-288 | A new process loads the records in memory if it succeeds and the previous ones if not. |
| `Registry.SandboxStore.Mutate` | crates/sandbox-manager/src/store.rs:91-244 | Takes a step of the runs below: exactly when it is refused, with which error, and that it then changes nothing; an accepted one files exactly the record asked for, field by field (a created one is in state `Creating` at revision 0, without endpoints), and answers `Ok` and changes what is loaded exactly when the write completes. |
| `Registry.SandboxStore.Reconcile` | crates/sandbox-manager/src/store.rs:55-72 | Takes a step of the runs below: recovered records replace or join the map, every other record only becomes failed; it answers `Ok` exactly when the write completes, with the sorted list of exactly the ids that were not recovered and not failed before. |
| `Registry.PassesReconcile` | crates/sandbox-manager/src/store.rs:55-72 | The two passes give, id by id, the last recovered record, else the old one as failed; keys are the old ones and the recovered ones. |
| `Registry.ReconciledExactly` | crates/sandbox-manager/src/store.rs:55-72 | Id by id: the last recovered record with that id, or else the old record with only its state changed, to failed. |
| `Registry.ReconcileTwice` | crates/sandbox-manager/src/store.rs:55-72 | A second reconcile with the same containers lists nothing and changes nothing. |
| `Registry.RestartLosesNothingAcknowledged` | crates/sandbox-manager/src/store.rs:33-288 | Durability over all runs: wherever writes stop, a restart loads the records as they were after some call, and no call that succeeded came later; keys always match ids. |
| `Registry.RevisionCountsAdvances` | crates/sandbox-manager/src/store.rs:122-244 | Over all runs: while no call replaces its record, a sandbox keeps its root, base and profile, and its activity revision counts the calls that advanced it, wherever writes stop. |
| `Registry.CreatedSandboxCountsAdvances` | crates/sandbox-manager/src/store.rs:91-244 | Over all runs, from its creation on: a sandbox carries what it was created with, and its revision is the number of calls that advanced it. |
| `Registry.ErrorKeepsMemoryExactly` | crates/sandbox-manager/src/store.rs:91-266 | After an error memory is as it was if and only if the mutation was refused or asked for what was there already; what a restart loads always is. |
| `Registry.UnwrittenCreationIsAnsweredWithError` | crates/sandbox-manager/src/store.rs:91-108 | A creation whose snapshot write does not begin: an error is answered, the sandbox is in memory, and a restart loses it. |
| `UseTree.PathSourceLength` | xtask/src/operation_architecture/source_boundaries.rs:360-387 | The scan ends on every input and stops where the path ends. |
| `UseTree.MatchingBrace` | xtask/src/operation_architecture/source_boundaries.rs:408-423 | The index where the depth first returns to zero, or none. |
| `UseTree.SplitReferenceGroup` | xtask/src/operation_architecture/source_boundaries.rs:389-406 | The pieces between the commas at depth zero, at least one. |
| `UseTree.ItemsAreShort` | xtask/src/operation_architecture/source_boundaries.rs:389-406 | No item is longer than its group, so the expansion ends on every input. |
| `UseTree.ExpandReferenceTree` | xtask/src/operation_architecture/source_boundaries.rs:311-347 | The recursion ends on every input and adds exactly the references of the tree to the set. |
| `UseTreePrint.PrintIsSpacedTokens` | xtask/src/operation_architecture/source_boundaries.rs:193-194 | The printed form is the tokens joined by single spaces. |
| `UseTreePrint.ExpandedPrintedTree` | xtask/src/operation_architecture/source_boundaries.rs:311-423 | Round trip: for every nested use tree, with globs, aliases, groups in groups and trailing commas, expanding its printed form gives exactly its fully qualified leaf paths. |
| `UseTreePrint.PrintedTreeExpandsToLeafPaths` | xtask/src/operation_architecture/source_boundaries.rs:311-347 | The leaves as lists of names: each group prefix followed by the path of the leaf. Expanding any printed tree under any prefix gives exactly these lists joined by `::`. |
| `UseTreePrint.DanglingSeparatorIsDropped` | xtask/src/operation_architecture/source_boundaries.rs:349-358 | A path that ends in a separator is read without it. |
| `UseTreePrint.UnclosedGroupIsReported` | xtask/src/operation_architecture/source_boundaries.rs:311-345 | A printed group without its closing brace gives exactly the unterminated-group marker. |
| `Lines.LinesPartition` | crates/sandbox-observability/telemetry/src/lines.rs:12-56 | Complete lines and tail are a cut of the content at its newlines. |
| `Lines.LinesAreUnique` | crates/sandbox-observability/telemetry/src/lines.rs:12-56 | There is no other such cut. |
| `Lines.ForEachCompleteLine` | crates/sandbox-observability/telemetry/src/lines.rs:14-56 | For every content and every chunking: visits exactly the complete lines of at most `max_line_bytes - 1` bytes, in order, up to the first failing visit, which may depend on all earlier ones; counts the oversized ones; reports a tail exactly when bytes follow the last newline; the buffer stays within its cap. |
| `Lines.VisitsWhatFits` | crates/sandbox-observability/telemetry/src/lines.rs:14-56 | What is visited: in order, exactly the lines that fit with their newline in the maximum, and empty ones; the number of all others is the oversized count. |
| `Lines.CountsFittingBytes` | crates/sandbox-observability/telemetry/src/lines.rs:36-51 | The byte count is what the fitting lines take up, and one byte for every oversized one. |
| `Lines.CountsCompleteBytes` | crates/sandbox-observability/telemetry/src/lines.rs:36-39 | The byte count never exceeds what the complete lines take up, and is exactly that if and only if no line is oversized. |
| `Lines.CountsWholeFile` | crates/sandbox-observability/telemetry/src/sink.rs:206-213 | The byte count is the length of the file if and only if no line is oversized and nothing follows the last newline. |
| `Lines.OversizedLineIsMiscounted` | crates/sandbox-observability/telemetry/src/lines.rs:36-51 | A two-byte file with one oversized line is counted as one byte. |
| `ConfigMerge.MergeValues` | crates/sandbox-config/src/merge.rs:14-35 | The entry-by-entry merge, in any order of keys, gives the merged document. |
| `ConfigMerge.MergeIsIdempotent` | crates/sandbox-config/src/merge.rs:14-35 | Merging the same override again changes nothing. |
| `ConfigMerge.MergeWithSelf` | crates/sandbox-config/src/merge.rs:14-35 | Merging a value with itself is the identity. |
| `ConfigMerge.MergedPathResolves` | crates/sandbox-config/src/merge.rs:14-35 | Every key path of a merged document: where both hold mappings, a mapping with the keys of both; else the value of the override where it has one; nothing below a non-mapping of the override; else the value of the baseline. |
| `ConfigMerge.PathsDetermineMerge` | crates/sandbox-config/src/merge.rs:14-35 | No other document resolves every key path so. |
| `ConfigMerge.ScalarOverrideTakesEffect` | crates/sandbox-config/src/merge.rs:14-35 | For instance a scalar override of a key always takes effect. |

## Left out

- Decompression, tar header parsing, the decompressed-byte cap, `write_archive` and the Windows stubs of the export applier: entries arrive parsed, and a header field may be unreadable.
- File descriptors, permission errors and names that are not UTF-8 in the destination, directory and symlink times, and 64-bit overflow of the counters.
- ExportOverlay.WinnersSurvive: does not claim the mode of a skipped file, because the code does not compare it.
- ExportOverlay.AcceptedWinnersSurvive: does not claim the mode of a skipped file either, for the same reason.
- ExportOverlay.OverlayExactly: speaks of distinct content paths, because with a repeated path the order-free overlay does not name one entry; `PassesSettle` states the lookup for all deltas.
- RingStore.CacheIsTransparent: does not model failing file operations, because a failed append after a reset can leave the cache ahead of the file; `TransparentExactlyWhenCoherent` shows which initial files it can hold for.
- A header write that stops halfway, and durability of ring writes without `sync`.
- Sampler.RemovedStaysRemoved: does not model the sampler's timer and cancellation; batches may be taken at any time.
- The CPU share is a real number, not a 64-bit float, so rounding at the threshold is not modelled.
- Artifact.CaptureArtifact: takes the length of the serialized artifact as a function and the success of the file write as a value, because JSON and SHA-256 are not modelled.
- The memory, thread, runtime and ownership fields of the diagnostic payload, the published tracker state and the names of the activity classes are not modelled.
- Lifecycle.ShutdownIsLast: does not claim that HTTP blocking closures have ended, because their future can be dropped while the closure still runs.
- ShutdownPaths.EveryRunCanExit: says that the exit stays reachable, not that it is reached, because scheduling fairness and clients that keep a connection open are not modelled. Neither is a panicking task.
- Response contents, authentication, request decoding and removal of run artifacts in the daemon.
- Registry.StopsAtOldOrNew: assumes that the serializer round-trips and that a rename is atomic, because JSON and directory syncing are not modelled.
- The registry without a file, `list`, `inspect`, `ready_ids` and `is_ready`, and lock poisoning.
- The scans around the use-tree expander: finding crate names, aliases and re-exported roots in a token stream, and the tokenizer itself.
- Read errors in the line scanner, the compaction of segments around it, and key order and tags of YAML documents.
- Everything outside these files: Docker, gateways, the command line, layer storage, workspace sessions, cgroups and process handling.
