# Verified models of dbx components

dbx is a database client with a set of companion services. This project models eight of its components in
Dafny and proves what they keep over every input, every run and every interleaving. `dafny verify
dfyconfig.toml` checks all files; `Common.dfy` holds the few definitions they share.

- **Statistics aggregation** (`Aggregation`, `AggregationRuns`, `AggregationTimeline`,
  `AggregationUniques`, `AggregationWindows`, `ArchiveKeys`): a resumable job that adds analytics rows to key-value totals in slices. A trigger is a list of writes and an
  interruption is a prefix of it, so the theorems hold for a crash between any two writes of any trigger. The
  ledger in a run's state records what was added by slices that ran again; it is the exact amount by which
  totals can exceed the one-shot sums.
- **Bundle builder** (`Crc32` over `ShiftRegister` and `Polynomials`, `Records`, `StoredZip`, `ZipLayout`, `Tar`,
  `TarKinds`, `DriverPackage`, `BundleAssembly`, `Pool`): reading driver packages, downloading them in a pool, merging their registries and
  writing one ZIP file. 32-bit words are lists of 32 bits, so that the table-driven checksum is related to
  polynomial division by linearity alone.
- **Browser switch editor** (`FeatureEditor`, `FeatureEdits`, `FeatureRequests`, `FeatureText`): adding a feature to a
  command line of quoted switches. A tokenizer that tracks quotes and backslashes is the reference; edits are judged by the tokens they
  leave.
- **Issue submission** (`RollingLimit`, `IssueDrafts`, `LimitRuns`, `IssueRuns`): the durable object with its
  rolling limit, draft claims and alarm, and runs of any number of request handlers around it.
- **HTTP tunnel** (`Base64`, `TunnelQueue`, `TunnelRuns`, `TunnelProgress`): two locked queue files between HTTP handlers and one
  worker, with locking, reading, writing and emptying as separate steps.
- **Window geometry** (`WindowGeometry`, `WindowPlacement`, `WindowRestore`): finding a display and restoring a frame, over reals.
- **Migration gate** (`MigrationGate`): store-then-notify against register-check-park.
- **Paginated listing** (`InstanceKeys`, `Pagination`, `PageCounts`): a de-duplicating page loop against an arbitrary server.

Classes with fields model objects that are updated in place (`Archive`, `Limiter`, `QueueFile`); loops of the
source are methods with invariants, proved against functions; concurrent protocols are state machines whose runs
are sequences of enabled events.

## Where code and comments disagree

The models follow the code.

- `deploy/plugin-stats-worker/worker.ts:301-304` says the tuning value halves on failure. The code at 410-415
  halves the chunk inside the saved cursor, and does nothing when no cursor is saved.
- `deploy/plugin-stats-worker/worker.ts:381-382` says daily uniques converge to the full-day value, and the
  worker's README calls them per-day distinct identities. The code at 384 overwrites the counter of a day with the
  count of one window. `AggregationUniques.WholeDayIff` says exactly when that is the day's count, and
  `AggregationUniques.LaterWindowOverwrites` gives a run where it is not.
- `src-tauri/src/window_geometry.rs:147-148` says the display that is overlapped most. The code at 159 takes the
  first one that is overlapped.
- `docs/lib/agentBundle.ts:350` names the 4 GiB limit of the format but checks data sizes without headers.
  `StoredZip.RoundTripIff` gives the exact condition and `StoredZip.SizeCheckIsNotEnough` an input that passes.

## Assumptions of the models

- Triggers of the aggregation do not overlap, and a query for a fixed window always returns the same rows.
- Clocks of the issue service do not run backwards; consuming the limit and setting the alarm is one step.
- File operations of the tunnel succeed and locks exclude; there is one worker per session.
- Memory is sequentially consistent for the gate, and a notification reaches every call that has registered.
- A reader of the bundle that looks a name up gets the last entry of that name. Text encoding is injective.
- JSON parsing, text encoding and decoding, and the answers of servers and sockets are parameters.

## Model

| member | source | states |
|---|---|---|
| `Aggregation.EntriesSum` | deploy/plugin-stats-worker/worker.ts:354-358 | grouping the rows into the plugin map keeps, for every pair of kind and plugin, exactly the sum of its rows |
| `Aggregation.EntriesInOrder` | deploy/plugin-stats-worker/worker.ts:354-358 | the plugin map holds each pair of the rows exactly once, in the order of first occurrence, and no other pair, each with the sum of its rows |
| `Aggregation.SummarisedAdds` | deploy/plugin-stats-worker/worker.ts:389-394 | the summary step raises every public entry by exactly the window sum of its plugin |
| `Aggregation.Archive.Perform` | deploy/plugin-stats-worker/worker.ts:361-397 | one key-value write changes the archive as its specification says and nothing else |
| `Aggregation.Archive.RunSlice` | deploy/plugin-stats-worker/worker.ts:361-387 | after any number of successful writes the archive holds exactly that prefix of the slice of the current phase |
| `Aggregation.Archive.Settle` | deploy/plugin-stats-worker/worker.ts:388-405 | closing a pass, or saving the cursor, stopped after any number of writes; the report of an uninterrupted trigger |
| `Aggregation.Archive.RunAggregation` | deploy/plugin-stats-worker/worker.ts:321-423 | the imperative trigger refines `AfterTrigger`, whatever number of its writes succeed, and reports what `Report` says |
| `AggregationRuns.WorkAdds` | deploy/plugin-stats-worker/worker.ts:361-387 | the writes of a slice move every total exactly as far as the cursor moves |
| `AggregationRuns.StepBalanced` | deploy/plugin-stats-worker/worker.ts:329-419 | one trigger, interrupted between any two writes, keeps every account balanced |
| `AggregationRuns.RunBalanced` | deploy/plugin-stats-worker/worker.ts:321-423 | conservation over every run: each total is its old value, plus the sums of the completed windows, plus the part before the saved cursor, plus what re-run slices added twice |
| `AggregationRuns.ExcessBounded` | deploy/plugin-stats-worker/worker.ts:361-419 | what is counted twice is at most the slices run again; for the summary it is exactly the re-run summary steps |
| `AggregationRuns.FailureFreeRunIsOneShot` | deploy/plugin-stats-worker/worker.ts:339-405 | without interruptions, for any rows and any chunk sizes, every versioned total, plugin total and summary entry ends at its old value plus the one-shot sums |
| `AggregationRuns.NothingIsRerun` | deploy/plugin-stats-worker/worker.ts:361-419 | a run without interruptions runs no slice and no summary step again, so the bracket of the next row is tight |
| `AggregationRuns.InterruptedRunBracketed` | deploy/plugin-stats-worker/worker.ts:361-419 | with interruptions anywhere, a finished pass never undercounts and overcounts at most by what was run again |
| `AggregationUniques.CounterIsLastCount` | deploy/plugin-stats-worker/worker.ts:380-388 | in every run, interrupted anywhere, a daily unique counter holds the count of the last completed window with a row for its day; rows of a pass in its last phase are overwritten as its cursor moves |
| `AggregationUniques.CounterIsLastWindow` | deploy/plugin-stats-worker/worker.ts:160-200 | over a log of visits: whenever no pass is in progress, the counter is the sum of the hourly buckets of the last completed window that saw the day |
| `AggregationUniques.WholeDayIff` | deploy/plugin-stats-worker/worker.ts:380-388 | the counter is the count of the whole day if and only if that window saw everyone who was seen on the day, in every hour they were seen |
| `AggregationUniques.UncutWholeDayIff` | deploy/plugin-stats-worker/worker.ts:380-388 | over runs: where the last window that saw the day cuts none of its hours, the counter is the count of the whole day if and only if no other completed window saw the day |
| `AggregationUniques.LaterWindowOverwrites` | deploy/plugin-stats-worker/worker.ts:381-384 | two machines, then one more on the same day: two uninterrupted passes leave the counter at one, not three |
| `AggregationRuns.AdvanceProgresses` | deploy/plugin-stats-worker/worker.ts:368-388 | a trigger that settles and does not close the pass lowers the bound on the triggers still needed |
| `AggregationRuns.UnfinishedPassBound` | deploy/plugin-stats-worker/worker.ts:361-403 | in every run fewer triggers settle inside a pass than the bound computed from its three lists and the smallest chunk |
| `AggregationRuns.PassFinishes` | deploy/plugin-stats-worker/worker.ts:361-403 | an uninterrupted pass finishes within that bound |
| `AggregationRuns.ChunkStaysInBounds` | deploy/plugin-stats-worker/worker.ts:397-414 | growth, halving and the tuning write-back keep the chunk size in [8, 400] in every run |
| `AggregationTimeline.PassesTile` | deploy/plugin-stats-worker/worker.ts:339-346 | without an override the completed windows follow each other with no gap and no overlap, from the first watermark to the current one |
| `AggregationTimeline.EveryEventCountedOnce` | deploy/plugin-stats-worker/worker.ts:339-405 | end to end: a total plus the downloads no query could see is its old value plus every event since the first watermark counted once, plus the re-run additions |
| `AggregationTimeline.NothingUnseenIff` | deploy/plugin-stats-worker/worker.ts:207-209 | downloads are missed exactly when some completed window hides one: of kind `dl` and 29 days or more before the window ends |
| `AggregationWindows.EveryWindowIsOpened` | deploy/plugin-stats-worker/worker.ts:339-346 | over every run, with overrides and interruptions anywhere, the completed windows and the open one are exactly those the opening triggers asked for, in order; each begins at its trigger's override or where the window before it ended, and ends at that trigger's clock |
| `AggregationWindows.SavedWindowStays` | deploy/plugin-stats-worker/worker.ts:330-346 | a saved cursor decides the next completed window, whatever clock and override the later triggers carry |
| `AggregationWindows.PassCountsItsWindow` | deploy/plugin-stats-worker/worker.ts:339-405 | a pass that no trigger interrupts is completed within the bound, moves the watermark to the clock of its first trigger, and raises every total and summary entry by what one query of that window counts |
| `AggregationWindows.AnswerMeans` | deploy/plugin-stats-worker/worker.ts:398-405 | the answer of any trigger after any run: the completed window with the sizes of its two lists, or the saved phase and position with the size of the list it points into |
| `AggregationWindows.ChunkAdapts` | deploy/plugin-stats-worker/worker.ts:397-415 | a new pass takes the tuned chunk if it is in range, else 400; each saved position one more; a failure half, but at least 8; a completed pass leaves a quarter more, rounded up and at most 400 |
| `ArchiveKeys.PairBack` | deploy/plugin-stats-worker/worker.ts:355-373 | splitting a key of the plugin map gives its kind and plugin back |
| `ArchiveKeys.TotalsHaveTheirOwnKeys` | deploy/plugin-stats-worker/worker.ts:363-373 | two different running totals never share a key text |
| `Crc32.BuildTable` | docs/lib/agentBundle.ts:289-299 | entry i of the table is eight division steps applied to i |
| `Crc32.TableStep` | docs/lib/agentBundle.ts:301-307 | eight division steps are one table look-up on the low byte and a shift of the rest |
| `Crc32.Checksum` | docs/lib/agentBundle.ts:301-307 | the table-driven loop computes what the bit-serial register computes, for every byte sequence |
| `Crc32.CrcIsRemainder` | docs/lib/agentBundle.ts:301-307 | that value is the complement of what long division of the message polynomial leaves (first 32 coefficients complemented, 32 zeros appended), as section 8 of RFC 1952 defines it |
| `Crc32.CrcIsTheRemainder` | docs/lib/agentBundle.ts:301-307 | what is left is the remainder: there is a quotient with dividend = quotient * polynomial + remainder over GF(2), and no other word has one |
| `Crc32.DivisorTerms` | docs/lib/agentBundle.ts:289-299 | the exponents of the polynomial: 32, 26, 23, 22, 16, 12, 11, 10, 8, 7, 5, 4, 2, 1 and 0, and no others |
| `Records.Store` | docs/lib/agentBundle.ts:353-364 | a field written into a buffer: its little-endian bytes, truncated to its width, every other byte untouched |
| `Records.RecordGet` | docs/lib/agentBundle.ts:352-365 | every field of a record reads back as the value stored, truncated to its width |
| `StoredZip.CheckNames` | docs/lib/agentBundle.ts:335-340 | accepts exactly the lists of non-empty ASCII names of at most 65535 bytes |
| `StoredZip.BuildStoredZip` | docs/lib/agentBundle.ts:332-402 | succeeds exactly on accepted lists that pass the size check, with the parts spelling the archive and `totalSize` its length; each of the four refusals has its exact condition |
| `StoredZip.EntryInPlace` | docs/lib/agentBundle.ts:346-391 | every local header, its data and its central header stand where the offsets say |
| `StoredZip.RoundTripIff` | docs/lib/agentBundle.ts:332-402 | a strict reader (sections 4.3.7, 4.3.12 and 4.3.16 of PKWARE APPNOTE.TXT) that also refuses flags and versions after 2.0 gets back every name, datum and checksum in order if and only if the offsets fit in 32 bits, and otherwise refuses the archive |
| `StoredZip.SizeCheckIsNotEnough` | docs/lib/agentBundle.ts:350-350 | the size check leaves headers out: an input that passes it and whose archive no strict reader accepts |
| `ZipLayout.LocalHeaderBytes` | docs/lib/agentBundle.ts:352-366 | byte by byte, the local header of every entry of every archive: signature, version 20, no flags, stored, time, date, checksum, both sizes, name length, then name and data |
| `ZipLayout.CentralHeaderBytes` | docs/lib/agentBundle.ts:368-388 | byte by byte, the central header of every entry, with the offset of its local header |
| `ZipLayout.EndRecordBytes` | docs/lib/agentBundle.ts:393-400 | byte by byte, the end record: one disk, the number of entries twice, size and offset of the directory, no comment |
| `ZipLayout.NothingBetween` | docs/lib/agentBundle.ts:346-401 | entries, directory and end record follow each other without gaps |
| `Tar.Octal` | docs/lib/agentBundle.ts:190-198 | the size field reader against its specification, on every input |
| `Tar.ParseTar` | docs/lib/agentBundle.ts:201-232 | the reader ends on every input, slices only inside the buffer, and computes `ParseFrom` |
| `Tar.SizeBack` | docs/lib/agentBundle.ts:190-198 | eleven octal digits and a terminator read back as the size |
| `Tar.TarRoundTrip` | docs/lib/agentBundle.ts:201-232 | for any written members the reader returns exactly the last data under each name of the listing |
| `Tar.FilesRoundTrip` | docs/lib/agentBundle.ts:201-232 | for any list of files, with names split over the header or announced as long names, and with directories and pax headers anywhere between them, as long as the long names among them decode to what was encoded, the reader returns under each full name exactly the data of the last file of that name |
| `Tar.WriteThenRead` | docs/lib/agentBundle.ts:201-232 | writing any list of files the format can hold, whose long names decode to what was encoded, with directories and pax members between them, and reading the bytes back, gives the last data of each name |
| `Tar.TextBack` | docs/lib/agentBundle.ts:208-208 | a name field gives back the name it was filled with |
| `Tar.SplitNameBack` | docs/lib/agentBundle.ts:218-225 | a header that splits a name into prefix and name gives back the joined name exactly when its magic is `ustar` and the prefix is not empty, and else the name |
| `TarKinds.SkippedMemberIsIgnored` | docs/lib/agentBundle.ts:226-227 | a directory, pax or global pax member anywhere in an archive is as if it were not there, whatever follows, an error included |
| `TarKinds.ZeroIsRegular` | docs/lib/agentBundle.ts:210-217 | a type byte 0 reads as 48 everywhere |
| `TarKinds.OtherKindsAreRefused` | docs/lib/agentBundle.ts:226-228 | every other type byte is refused and named in the error, whatever follows |
| `TarKinds.BadSizeIsRefused` | docs/lib/agentBundle.ts:190-198 | a size field whose octal digits are followed by anything but NUL or space is refused |
| `TarKinds.CutMemberIsRefused` | docs/lib/agentBundle.ts:211-213 | a member whose data the archive does not hold in full is refused |
| `TarKinds.LoneByteIsAFile` | docs/lib/agentBundle.ts:203-208 | only an all-zero block ends the archive: one name byte makes it the header of an empty file |
| `TarKinds.CutMeans` | docs/lib/agentBundle.ts:208-208 | a name field is cut at its first NUL behind which no line feed and no carriage return stands; earlier NULs stay in the name |
| `TarKinds.LongNameEndsAtNul` | docs/lib/agentBundle.ts:215-216 | a long name ends at its first NUL; whatever bytes follow it make no difference to what is read from the archive |
| `DriverPackage.FilenameIsLastSegment` | docs/lib/agentBundle.ts:60-63 | splitting off the scheme makes no difference: the file name is what follows the last slash of the URL |
| `DriverPackage.RewrittenNamesTheFile` | docs/lib/agentBundle.ts:249-253 | the rewritten `offline://` URL names the same file |
| `DriverPackage.ExtractIsConsistent` | docs/lib/agentBundle.ts:239-287 | whatever a package holds, what comes out has one artifact, for the driver asked for, whose URL names the extracted file and whose recorded size is the file size |
| `DriverPackage.ExtractExactly` | docs/lib/agentBundle.ts:239-287 | a package that describes exactly the driver asked for, with one artifact, is taken if and only if it holds the named file at the recorded size; what comes out, field by field, and which error otherwise |
| `DriverPackage.ExtractRefuses` | docs/lib/agentBundle.ts:241-247 | every other package is refused, with the error that belongs to it: no registry, unreadable registry, other drivers, not one artifact |
| `BundleAssembly.MergesIff` | docs/lib/agentBundle.ts:448-461 | merging fails exactly when two packages are for the same driver and one of them is not native |
| `BundleAssembly.JarIsKept` | docs/lib/agentBundle.ts:448-461 | a jar entry is in the registry exactly as extracted |
| `BundleAssembly.VersionIsFirst` | docs/lib/agentBundle.ts:448-461 | what an entry says besides its artifacts comes from the first package for the driver |
| `BundleAssembly.RegistryRecordsLast` | docs/lib/agentBundle.ts:448-461 | the merged registry records, for every driver and slot (jar or platform), the artifact of the last package for it, and nothing else |
| `BundleAssembly.Assemble` | docs/lib/agentBundle.ts:556-581 | succeeds exactly when every package is there, none clash and the data is at most 3.5 GiB, and yields the merged registry and the entries in order; otherwise names the first package that is missing or clashes, or the size |
| `BundleAssembly.EntriesMean` | docs/lib/agentBundle.ts:559-580 | each driver file stands under `drivers/` in the order of the packages, then the JRE under `jre/` |
| `BundleAssembly.LookupFindsLast` | docs/lib/agentBundle.ts:559-580 | looking a driver file up by name finds the last package that ships it, JRE or not |
| `BundleAssembly.EveryArtifactIsFoundIff` | docs/lib/agentBundle.ts:556-565 | every recorded size is found under its file name if and only if no kept, sized package is followed by a last package of the same file name and another length |
| `BundleAssembly.NoneShadowedIff` | docs/lib/agentBundle.ts:556-565 | where every package is kept and sized, that is: no two packages ship one file name with different lengths |
| `BundleAssembly.SharedNameHidesADriver` | docs/lib/agentBundle.ts:559-565 | of two drivers that ship one file name with different lengths the assembly accepts both, and the first is not found |
| `BundleAssembly.SharedNameExample` | docs/lib/agentBundle.ts:559-565 | two such packages |
| `BundleAssembly.BundleReadsBackIff` | docs/lib/agentBundle.ts:556-585 | from packages to reader: a look-up by name in a fitting archive gives every driver artifact its recorded size if and only if no package is shadowed |
| `BundleAssembly.RegistryIsFound` | docs/lib/agentBundle.ts:583-585 | the registry file is found under its name in what a reader returns, because no driver file and no JRE can be named like it |
| `BundleAssembly.LimitLeavesRoom` | docs/lib/agentBundle.ts:581-585 | with at most 3.5 GiB of data and less than half a GiB for registry and headers, the offsets fit, and an accepted archive reads back entry by entry |
| `Pool.StartedInOrder` | docs/lib/agentBundle.ts:424-442 | in every interleaving the started tasks are an initial segment of the tasks, each started once |
| `Pool.BoundedConcurrency` | docs/lib/agentBundle.ts:424-442 | at most min(max(1, limit), n) tasks run at a time |
| `Pool.ConcurrencyIsReached` | docs/lib/agentBundle.ts:424-442 | the bound is reached: some run has that many tasks in progress at once |
| `Pool.NothingStartsAfterFailure` | docs/lib/agentBundle.ts:428-439 | after a recorded failure no task starts and the recorded error stays |
| `Pool.SettledMeans` | docs/lib/agentBundle.ts:440-441 | a settled pool throws the first error that happened, or returns after all tasks completed |
| `Pool.PoolTerminates` | docs/lib/agentBundle.ts:424-442 | every run has at most 3n + width steps, and one that can go no further has settled |
| `FeatureEditor.ScanToken` | src-tauri/src/webview2_legacy_css.rs:19-33 | the scan ends at the end of the token and knows whether its quotes are closed |
| `FeatureEditor.ReadsCharacters` | src-tauri/src/webview2_legacy_css.rs:19-33 | the state of the scan in characters: the number of backslashes that end the text, and whether an odd number of quotes behind an even number of backslashes stands in it |
| `FeatureEditor.WholeIff` | src-tauri/src/webview2_legacy_css.rs:19-33 | a text is one piece exactly when every white space in it has an odd number of such quotes before it |
| `FeatureEditor.ValueQuotesArePaired` | src-tauri/src/webview2_legacy_css.rs:37-49 | after the first pair of quotes is stripped, an opening quote before the value has a partner behind it, by quote parity |
| `FeatureEditor.TokenRange` | src-tauri/src/webview2_legacy_css.rs:37-50 | the value range of one complete token, against its specification |
| `FeatureEditor.LastValue` | src-tauri/src/webview2_legacy_css.rs:11-53 | on every input the slices are in range, the span is neither inverted nor out of range, and it is the one of the last complete token with the switch |
| `FeatureEdits.SpanIsText` | src-tauri/src/webview2_legacy_css.rs:11-53 | what the loop finds is the value the last token with the switch carries |
| `FeatureEdits.ContainsByTokens` | src-tauri/src/webview2_legacy_css.rs:55-57 | whether the feature is listed depends on the tokens alone |
| `FeatureEdits.InsertKeepsTokensIff` | src-tauri/src/webview2_legacy_css.rs:64-66 | inserting at the end of a value changes that token only, if and only if the place ends the token or an even number of backslashes stands before it |
| `FeatureEdits.AppendKeepsTokensIff` | src-tauri/src/webview2_legacy_css.rs:67-73 | appending a switch adds one token and changes none, if and only if no token is unterminated |
| `FeatureEdits.EditIsExactIff` | src-tauri/src/webview2_legacy_css.rs:59-75 | the edit leaves exactly the expected tokens if and only if it is safe, a condition on the arguments before the edit |
| `FeatureEdits.SafeEditWorks` | src-tauri/src/webview2_legacy_css.rs:59-75 | a safe edit makes the feature listed and leaves every other switch with the value it had |
| `FeatureEdits.ConfigureDecides` | src-tauri/src/webview2_legacy_css.rs:77-92 | in the safe case the feature is requested exactly when neither the caller nor the arguments disable it, and configuring again changes nothing |
| `FeatureRequests.RequestIff` | src-tauri/src/webview2_legacy_css.rs:77-92 | for every argument string, the exact condition under which the feature is requested after `configure`, on the arguments before the call |
| `FeatureRequests.InsertionRequestIff` | src-tauri/src/webview2_legacy_css.rs:64-66 | where no quote stands behind the insertion, that is: the insertion is safe, or the tokens before it list the feature and do not disable it |
| `FeatureRequests.DisableIff` | src-tauri/src/webview2_legacy_css.rs:81-83 | for every argument string, the exact condition under which the feature stays requested although the caller disables it |
| `FeatureRequests.UnchangedIff` | src-tauri/src/webview2_legacy_css.rs:77-88 | configuring changes nothing exactly when the feature is disabled already, or listed and not to be disabled |
| `FeatureRequests.InsertedTokens` | src-tauri/src/webview2_legacy_css.rs:64-66 | the tokens any insertion leaves, safe or not: those before it, and those of the edited token run together with what follows |
| `FeatureRequests.OpenSwallows` | src-tauri/src/webview2_legacy_css.rs:67-73 | text without quotes behind an unterminated quote changes no value of any switch |
| `FeatureEdits.ConfigureIsOneInsertion` | src-tauri/src/webview2_legacy_css.rs:77-88 | `configure` inserts text at one place at most, and does nothing outside the Win7 build |
| `FeatureEdits.CleanIsSafe` | src-tauri/src/webview2_legacy_css.rs:77-92 | closed quotes and no backslash before a quote are enough for all of the above |
| `FeatureRequests.UnterminatedQuoteBreaksIt` | src-tauri/src/webview2_legacy_css.rs:22-36 | a quote left open in any token swallows the appended switch, so the request fails |
| `FeatureRequests.EscapedQuoteBreaksIt` | src-tauri/src/webview2_legacy_css.rs:46-66 | closed arguments whose value ends before an escaped quote: the edit opens the token and the request fails |
| `FeatureRequests.UnsafeIsNotAlwaysLost` | src-tauri/src/webview2_legacy_css.rs:46-66 | an unsafe insertion behind a token that lists the feature: it is requested all the same |
| `FeatureText.UnquotedTokens` | src-tauri/src/webview2_legacy_css.rs:15-36 | arguments without quotes are split into their words, none left open |
| `FeatureText.UnquotedValueIff` | src-tauri/src/webview2_legacy_css.rs:41-45 | such an argument carries a switch exactly when it starts with its name, in any case, and the value is the rest |
| `FeatureText.QuotedValue` | src-tauri/src/webview2_legacy_css.rs:37-49 | quotes around the value or around the whole argument are not part of the value, which may hold white space |
| `FeatureText.ListsIff` | src-tauri/src/webview2_legacy_css.rs:55-57 | a list names the feature exactly when one entry between its commas is the feature with blanks around it |
| `FeatureText.WhiteIff` | src-tauri/src/webview2_legacy_css.rs:55-57 | the characters trimmed off an entry are the 25 that Unicode calls white space |
| `FeatureText.EditText` | src-tauri/src/webview2_legacy_css.rs:59-75 | the exact text after the edit, for every argument string in which the feature is not listed: where it is inserted, with or without a comma, or how a new switch is appended |
| `FeatureText.EditedList` | src-tauri/src/webview2_legacy_css.rs:64-66 | a list that is not blank keeps its entries and gains the feature as the last one; a blank one becomes it |
| `FeatureText.ConfigureText` | src-tauri/src/webview2_legacy_css.rs:77-88 | the exact text after `configure`, for every argument string it changes, with the switch it edits |
| `RollingLimit.RecentIsTail` | docs/lib/issueSubmission.ts:199-199 | on a sorted list the timestamps inside the window are its tail |
| `RollingLimit.ResetMeans` | docs/lib/issueSubmission.ts:199-204 | the reset time is one window after the oldest request inside the window, or after this one when it is alone; `remaining` is the limit less the requests in the window |
| `IssueDrafts.Limiter.LimitConsume` | docs/worker.ts:569-580 | allowed exactly when fewer than eight requests are in the window; an allowed request is saved behind the sorted ones of the window, a refused one changes no list, and the alarm follows the last |
| `IssueDrafts.Limiter.DraftCreate` | docs/worker.ts:589-594 | the draft is stored under its id and no other record changes |
| `IssueDrafts.Limiter.DraftClaim` | docs/worker.ts:596-616 | what each answer says about the record: a grant means unexpired, without issue and without unexpired claim; only an expired draft is dropped; no other record changes |
| `IssueDrafts.Limiter.DraftRelease` | docs/worker.ts:618-626 | afterwards nobody holds the draft, and a draft nobody held, submitted ones included, is untouched |
| `IssueDrafts.Limiter.DraftComplete` | docs/worker.ts:628-649 | a usable issue is recorded on a draft that is there and on nothing else; an unusable one is refused |
| `IssueDrafts.FreshDraftLasts` | docs/worker.ts:464-473 | a saved draft can be claimed for exactly half an hour; after that a claim drops it and nothing else |
| `IssueDrafts.ClaimLasts` | docs/worker.ts:596-626 | a granted claim holds the draft for exactly two minutes, or until it is released |
| `IssueDrafts.ClockIsLast` | docs/worker.ts:492-549 | the events of a run are in the order of their times, and its clock stands at the last one |
| `IssueRuns.GrantedWhileLiveIff` | docs/worker.ts:606-613 | while a handler works on a draft, a claim is granted if and only if the draft is unexpired and the handler has outlived its own claim |
| `IssueRuns.LostCompletionIff` | docs/worker.ts:532-537 | after a lost complete call a later claim is granted, and a second issue can be opened, if and only if the draft is unexpired and the lost handler's claim has run out |
| `IssueRuns.GivenUpIff` | docs/worker.ts:538-549 | after a handler gives up without an issue, the unexpired draft can be claimed again if and only if the release call arrived or the claim has run out, and no issue exists for it |
| `IssueRuns.OneIssuePerDraft` | docs/worker.ts:492-549 | in every run where no handler outlives its claim and complete calls arrive, each draft has at most one live claim and leads to at most one issue |
| `IssueRuns.SubmittedSticks` | docs/worker.ts:596-649 | once submitted, every later claim returns that same issue until the alarm |
| `IssueRuns.PreparedIsReachable` | docs/worker.ts:464-473 | the state from which the next two runs start is reached by a request and its saved draft |
| `IssueRuns.OverrunOpensTwo` | docs/worker.ts:606-613 | a handler that outlives its claim: a run that opens two issues |
| `IssueRuns.LostCompletionOpensTwo` | docs/worker.ts:532-537 | a lost complete call: a run that opens two issues though no handler outlives its claim before any event |
| `LimitRuns.LimitIsExact` | docs/lib/issueSubmission.ts:193-205 | a request is refused exactly when eight of the whole history fall into the window, although the list is pruned, saved only on success and wiped |
| `LimitRuns.RefusalChangesNothing` | docs/worker.ts:569-580 | a refused request leaves the object as it was, alarm included |
| `LimitRuns.LimitedAlways` | docs/worker.ts:569-580 | in every run the saved list is the part of the history that still matters and the alarm waits for its last entry |
| `LimitRuns.NineSpanTheWindow` | docs/lib/issueSubmission.ts:193-205 | in every run any nine consecutive allowed requests span at least the whole window |
| `LimitRuns.ResetIsExact` | docs/lib/issueSubmission.ts:199-204 | the time a refusal names is exactly the time from which a request is allowed, and `remaining` is what is left |
| `LimitRuns.AlarmWipesOnlyTheExpired` | docs/worker.ts:654-656 | if drafts are saved within half an hour of their request, the alarm wipes no unexpired unsubmitted draft, and it changes no later answer of the limit |
| `Base64.RoundTrip` | deploy/dbx_tunnel.php:333-358 | strict decoding of an encoding gives the data back (section 4 of RFC 4648) |
| `Base64.AlphabetIs` | deploy/dbx_tunnel.php:333-359 | a value is the place of its character in the literal alphabet of section 4 of RFC 4648, in both directions |
| `Base64.PaddingIsRightIff` | deploy/dbx_tunnel.php:359-362 | padding may be left out, but where it is given it must complete the last group; a lone symbol is never enough; padded or not, the bytes are the same |
| `Base64.PartialGroup` | deploy/dbx_tunnel.php:359-362 | an incomplete last group gives the whole bytes of the group completed by zero values |
| `Base64.WhiteSpaceIsSkipped` | deploy/dbx_tunnel.php:359-362 | white space makes no difference, wherever it stands |
| `Base64.NothingFollowsPadding` | deploy/dbx_tunnel.php:359-362 | a symbol anywhere behind padding is refused |
| `Base64.ForeignIsRefused` | deploy/dbx_tunnel.php:359-362 | a character that is neither one of the 64, nor padding, nor white space is refused, wherever it stands |
| `TunnelQueue.DecodeLines` | deploy/dbx_tunnel.php:353-364 | the loop over the lines computes what the file decodes to |
| `TunnelQueue.LineAdds` | deploy/dbx_tunnel.php:354-363 | whatever stands around it, a line adds what it decodes to, and one that does not decode is as if it were not there |
| `TunnelQueue.DecodedBack` | deploy/dbx_tunnel.php:323-365 | whatever chunks were appended, decoding the file gives their bytes in order |
| `TunnelQueue.QueueFile.AppendChunk` | deploy/dbx_tunnel.php:323-336 | appends one chunk; empty data changes nothing |
| `TunnelQueue.QueueFile.DrainChunks` | deploy/dbx_tunnel.php:338-365 | returns the bytes of all chunks in order and empties the file |
| `TunnelQueue.MoveKeeps` | deploy/dbx_tunnel.php:323-352 | every single step of every caller, between taking and releasing the lock, keeps the queue sound |
| `TunnelQueue.NothingLost` | deploy/dbx_tunnel.php:323-365 | drained bytes, bytes in the hand of one drain and bytes in the file are the appended bytes in lock order |
| `TunnelRuns.StepKeeps` | deploy/dbx_tunnel.php:199-235 | every step of handlers and worker keeps both directions balanced |
| `TunnelRuns.BytesAreConserved` | deploy/dbx_tunnel.php:124-235 | at every point of every run, sent, unsent and queued bytes are exactly the bytes clients wrote, in lock order; and likewise for the bytes the socket gave |
| `TunnelRuns.PrefixDelivered` | deploy/dbx_tunnel.php:124-235 | each direction delivers a prefix: nothing lost in the middle, duplicated or reordered |
| `TunnelRuns.HistoriesGrow` | deploy/dbx_tunnel.php:323-365 | histories only grow, so what was appended first stays first |
| `TunnelRuns.QuietMeansInFiles` | deploy/dbx_tunnel.php:199-235 | with nobody inside a queue and the worker at the top of its loop, everything not delivered is in the files |
| `TunnelRuns.WriteAll` | deploy/dbx_tunnel.php:270-285 | whatever the socket answers, what was sent and what is left make up the data, and only a complete write ends normally |
| `TunnelRuns.WriteAllIsRun` | deploy/dbx_tunnel.php:270-285 | the loop is a run of the session that moves the accepted part, and only it, to the socket |
| `TunnelProgress.WorkerSendsAndPolls` | deploy/dbx_tunnel.php:199-235 | from every reachable state of a session that has not ended and is not to be closed, wherever the worker stands and whoever holds a lock, it can reach the socket poll with everything clients had written on the socket and everything it had read in the outbound file |
| `TunnelProgress.WorkerForwards` | deploy/dbx_tunnel.php:218-235 | while it polls, the worker takes up to 16384 bytes of the socket and can always return to the top with them as the last chunk of the outbound file |
| `TunnelProgress.ReadIsServed` | deploy/dbx_tunnel.php:135-148 | a new reader of a free queue is given everything in the outbound file |
| `TunnelProgress.WriteIsServed` | deploy/dbx_tunnel.php:124-133 | a new writer of a free queue has its data appended as one chunk |
| `TunnelProgress.SocketToReader` | deploy/dbx_tunnel.php:135-235 | end to end, from every such state: bytes the socket gives next are in the answers of read requests, right behind everything received before |
| `TunnelProgress.WriterToSocket` | deploy/dbx_tunnel.php:124-215 | end to end the other way, from every such state: the bytes of a new write request reach the socket right behind what was written before them, which is everything so far when nobody holds the inbound lock |
| `TunnelProgress.FirstWriteArrives` | deploy/dbx_tunnel.php:124-215 | a new tunnel serves its first write |
| `TunnelProgress.ChunksAreSmall` | deploy/dbx_tunnel.php:221-224 | in every run no line of the outbound file stands for more than 16384 bytes |
| `TunnelProgress.ClosedMeansDone` | deploy/dbx_tunnel.php:161-202 | after a close request, once the worker is at the top of its loop, no byte moves to or from the socket any more and the worker can only stop |
| `WindowPlacement.MatchingIsFirst` | src-tauri/src/window_geometry.rs:115-145 | for saved pixels: the first display that holds their origin at a possible size, else the first that holds it, else the last of those with the largest overlap, else the first of the nearest |
| `WindowPlacement.OverlapCounts` | src-tauri/src/window_geometry.rs:131-135 | the overlap of a frame and a display is the number of pixels they share |
| `WindowPlacement.DistanceIsLeast` | src-tauri/src/window_geometry.rs:139-144 | the distance is at most the squared distance between any two points of the two |
| `WindowPlacement.DistanceIsReached` | src-tauri/src/window_geometry.rs:139-144 | and it is reached by two of their points |
| `WindowPlacement.ContainsIff` | src-tauri/src/window_geometry.rs:53-56 | a display contains a point exactly when it shares the pixel there |
| `WindowPlacement.OverlapsIff` | src-tauri/src/window_geometry.rs:164-166 | two frames overlap exactly when some point lies strictly inside both |
| `WindowPlacement.PlausibleIff` | src-tauri/src/window_geometry.rs:109-113 | a size is possible on a display exactly when it is at least 900 by 600 points there |
| `WindowPlacement.BoundsMean` | src-tauri/src/window_geometry.rs:64-90 | the bounds of a display in points, times its factor, are what was reported for it |
| `WindowPlacement.StoredPlacement` | src-tauri/src/window_state_guard.rs:183-211 | what restoring from points gives: the saved factor, 900 by 600 at least or else the default length of that axis, placed on the display found for it |
| `WindowPlacement.LegacyPlacement` | src-tauri/src/window_state_guard.rs:193-224 | what restoring from pixels gives: the fields that are read, the factor of the matching display, the length read on each axis and the placement |
| `WindowPlacement.NothingRestoredIff` | src-tauri/src/window_state_guard.rs:183-205 | nothing is restored exactly when nothing usable was saved, or pixels were and there is no display |
| `WindowGeometry.MonitorForIsFirst` | src-tauri/src/window_geometry.rs:149-162 | the first display that holds the origin, else the first that overlaps, else the first |
| `WindowGeometry.CenteredAxis` | src-tauri/src/window_geometry.rs:184-191 | the result is on the display, is the start itself exactly when that was, and is otherwise centred to within half a point, where half a point goes towards the end of the display |
| `WindowGeometry.FitInside` | src-tauri/src/window_geometry.rs:170-182 | a fitted frame lies inside its display, and only a frame that already did is left alone |
| `WindowRestore.RestoredInside` | src-tauri/src/window_state_guard.rs:183-205 | a restored frame lies inside one display |
| `WindowRestore.RoundIsNearest` | src-tauri/src/window_state_guard.rs:109-117 | rounding gives a nearest whole number, and of two equally near ones the one further from zero |
| `WindowRestore.FixedIff` | src-tauri/src/window_state_guard.rs:183-211 | restoring a frame again gives the same frame if and only if the first display that holds its origin holds all of it and is exactly as long on every axis where the frame is below the minimum |
| `WindowRestore.StoredIsFixed` | src-tauri/src/window_state_guard.rs:183-211 | on disjoint displays of positive size, of any size, what is restored from points is restored unchanged ever after |
| `WindowRestore.PixelsKeepMinimumIff` | src-tauri/src/window_state_guard.rs:109-117 | a size read from pixels is at least the minimum unless rounding loses part of a minimal size or the factor overflows 32 bits |
| `WindowRestore.WholeFactorsKeep` | src-tauri/src/window_state_guard.rs:109-117 | whole factors lose nothing by rounding |
| `WindowRestore.LegacySizeIff` | src-tauri/src/window_state_guard.rs:193-200 | the same for the frame read from a saved state at the matching display |
| `WindowRestore.LegacyIsFixedIff` | src-tauri/src/window_state_guard.rs:183-211 | what restoring from pixels persists is restored unchanged if and only if no axis fell below the minimum with room to grow |
| `WindowRestore.OverlapDrifts` | src-tauri/src/window_geometry.rs:149-162 | with overlapping displays a second restore can move and shrink the frame |
| `WindowRestore.FractionalFactorGrows` | src-tauri/src/window_state_guard.rs:109-117 | with a factor that rounds a minimal width down, the second restore replaces it by the default |
| `MigrationGate.NoLostWakeUp` | src-tauri/src/migration_gate.rs:18-31 | in every interleaving, a waiter that sleeps unnotified before an open gate implies a call between storing true and notifying |
| `MigrationGate.NotificationReaches` | src-tauri/src/migration_gate.rs:18-31 | a notification reaches every call of `wait` that has registered, before or after it parks, and is remembered until it wakes up or returns |
| `MigrationGate.WakeMeansNotified` | src-tauri/src/migration_gate.rs:18-31 | a waiter wakes up only for a notification that came after it registered |
| `MigrationGate.ReturnedMeansObserved` | src-tauri/src/migration_gate.rs:21-31 | a call of `wait` that has returned read the flag as set in that very step |
| `MigrationGate.FewSteps` | src-tauri/src/migration_gate.rs:21-31 | while the gate stays open a waiter takes at most three more steps, whatever others do |
| `MigrationGate.NeverStuck` | src-tauri/src/migration_gate.rs:18-31 | before an open gate a waiter can step, or a call that opened it can notify so that it can |
| `MigrationGate.WaiterFinishes` | src-tauri/src/migration_gate.rs:18-31 | once every call that opened the gate has notified, a waiter alone reaches its return |
| `InstanceKeys.KeysDiffer` | scripts/nacos-service-seed.go:509-509 | keys tell instances apart as long as addresses hold no NUL, whatever the cluster names hold |
| `InstanceKeys.KeysCollide` | scripts/nacos-service-seed.go:509-509 | with a NUL in an address two instances can share a key |
| `Pagination.AddPage` | scripts/nacos-service-seed.go:507-516 | the inner loop appends exactly the instances with new keys and counts them |
| `Pagination.ListCatalog` | scripts/nacos-service-seed.go:478-529 | ends against every server with a finite set of keys, with the outcome of the first page at which the loop ends |
| `Pagination.NeverTwice` | scripts/nacos-service-seed.go:508-516 | whatever the server answers, nothing is returned twice |
| `Pagination.DistinctInstances` | scripts/nacos-service-seed.go:509-509 | different instances whose addresses hold no NUL have different keys |
| `Pagination.StableResult` | scripts/nacos-service-seed.go:517-526 | against a stable list the listing ends at the first page that meets its end condition, with the valid items up to there |
| `Pagination.ListedIff` | scripts/nacos-service-seed.go:517-526 | it returns all valid instances if and only if no valid item of the list stands behind that page |
| `Pagination.StableListIsListed` | scripts/nacos-service-seed.go:478-529 | a stable list of distinct valid instances is returned exactly, with or without its total |
| `Pagination.InvalidItemHidesTheRest` | scripts/nacos-service-seed.go:521-523 | without a total, one invalid item on a full page hides every page behind it |
| `Pagination.StableListEnds` | scripts/nacos-service-seed.go:517-526 | the listing of a stable list ends |
| `PageCounts.ParseLists` | scripts/nacos-service-seed.go:536-561 | parsing a page gives exactly its kept items in order, field by field |
| `PageCounts.NothingMissed` | scripts/nacos-service-seed.go:507-516 | nothing a page held is missing from what is collected, and what is collected came from a page |
| `PageCounts.StableListPages` | scripts/nacos-service-seed.go:485-528 | a stable list of distinct items: which page is the last one, and that a missing, right or too large total gives the whole list while one that is too small stops at the page that reaches it |
| `PageCounts.RepeatedPageIsRefused` | scripts/nacos-service-seed.go:524-526 | a server that always answers with the same full page is refused at the second one |
| `PageCounts.LaterAnswers` | scripts/nacos-service-seed.go:491-502 | a service gone after some full pages: what was collected counts; a failure: its text and nothing else |

## Left out

- HTTP routing, sessions, OAuth, SQL and GraphQL text, AI and GitHub requests: results appear as inputs or as free choices.
- The best-effort lock `agg:lock`: it is not atomic; the model assumes what it is for.
- Numbers as stored text: totals are integers, and unreadable totals (read as 0 by the source) are not modelled.
- The refusal of duplicate file names in a bundle: the source has none. `BundleAssembly.EveryArtifactIsFoundIff` says exactly when that matters.
- Decompression, SHA-256 checks, progress reports and the Blob of the bundle builder, and the date fields of the ZIP headers, which are inputs.
- Choosing drivers, workers and a JRE for a bundle plan: short decision functions. The size recorded for the JRE comes from the plan and the source does not compare it with the bytes.
- Draft fields that no decision reads (image count, language, creation time), the validation of ids, and image uploads.
- Session directories, tokens, expiry and the poll timing of the tunnel; failing file writes and a worker killed between reading and emptying a queue file.
- Rounding of floating point and NaN in window geometry; the physical path on other platforms, whose clamp is a few comparisons; tracking and persisting the frame.
- The command allow list of the migration gate, a table.
- JSON shapes of instance lists; the listing starts from items with address, port, cluster and kind.
- IssueRuns.OneIssuePerDraft: assumes that a failed request to open an issue opened none, because the source releases the claim on that ground.
- Pagination.ListCatalog: asks for a finite set of keys, because the source does not end against a server that always answers with new instances.
- TunnelQueue.MoveKeeps: several readers may drain at once; their answers are in lock order, which is the order the client sees only if it reads one at a time.
