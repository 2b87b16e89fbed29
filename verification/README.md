# A verified model of svgd-collect

svgd-collect samples `/proc` every few seconds, stores what it finds in
collectd-compatible RRD files, and serves the latest samples in the Prometheus
text format from a second thread. This project models the parts of it where
correctness is not obvious from one function, and proves what they promise.
`dafny verify dfyconfig.toml` checks everything.

## How it is laid out

- **The snapshot protocol** (`Snapshot`, `SnapshotRuns`). The collection thread
  and any number of HTTP threads as interleaved steps over a shared heap: torn
  writes into the staging buffer, a pointer swap taken one assignment at a time,
  copies made element by element, allocations that may fail at any point. One
  inductive invariant (`Snapshot.Inv`) carries every claim about runs. `Scrapes`
  joins it to the renderer: what a scraper reads in any interleaving.
- **The renderer.** `Render` says what the text should be and proves it parses
  and groups correctly; `Exposition` is the line format with an independent
  parser for it; `Grouping` is the argument about blocks and families, generic
  in the samples; `Rules` and `RuleTable` are the rule table and what holds of
  it; `Pieces` says what is appended piece by piece and what a parser makes of a
  line that lost some of them; `Renderer` is the code that appends, collects and
  sorts; `DString` is the
  growable string and `SnapArray` the growth of the snapshot array; `Prom` puts
  them behind the store of two buffers.
- **The RRD writer.** `Types` (schemas), `Path` (path builder and its inverse),
  `Rra` (consolidation arithmetic and the packed argument vector), `Writer` (one
  write, as a function and as an object that edits buffers in place),
  `WriterRun` (whole runs from an empty data directory) and `Emitters` (the
  metrics the readers can emit).
- **Readers and set-up.** `Stat` and `Processes` (parsing and per-name
  aggregation), `Cpu` (the delta state machine), `Quoted`, `Config` and
  `FlatConfig` (the mini-parser and why it inverts a printer), `Registry` (the
  enabled list), `Collect` (the interval loop that drives all of it), `Readers`
  (the two modelled readers plugged into the loop) and `Series` (why no scrape of
  theirs shows a series twice).
- **Foundations.** `CStrings`, `Decimal`, `Buffers`, `Lists`, `Metrics`.

Loops over growing text are verified against a function `upto` that says what the
first k turns write and is left abstract there; what was written is described by
`DString.Kept`: the pieces in order, each whole or missing; and for whole lines by
`Pieces.Puts`: each line whole or missing, its label list complete if no allocation
for label lists fails (`labelsOk`).

C strings are sequences without NUL. Metric values are reals; printing a number
is a function parameter, assumed only to print no separator, space, line feed or
NUL. `malloc`/`realloc`, librrd, rrdcached and `mkdir` answer freely: each answer
is a parameter or a nondeterministic choice. `qsort` is known only to return some
permutation sorted by family. `reliable` says of an allocator that it never fails.

## What turned out not to hold as hoped, and exactly when it does

- **One schema per file.** A type instance that contains `/` can move the type name
  out of the file name. Three exact conditions, each for all runs over any set of
  metrics: every file has the schema of the type its path names if and only if
  the name behind the last slash of each type instance stands for the same
  sources (`WriterRun.ConsistentExactlyWhenSchemasSurvive`); every file has the
  schema of all metrics that map to it if and only if metrics that share a path
  have the same sources (`WriterRun.SchemaIsUnique`); every update fits its file
  if and only if they have equally many
  (`WriterRun.UpdatesFitExactlyWhenCountsAgree`). The program's own readers never
  violate the last two (`Emitters.ReadersAgree`), but a thermal zone type with a
  slash violates the first (`Emitters.ZoneTypeCanMislead`).
- **Reading a path back.** The inverse works if and only if the plugin has no `-`,
  the type no `-` or `/`, and the type instance no `/` (`Path.PathRoundTrip`).
  No parser can do better: every path is that of one metric the inverse recovers, so
  any metric outside these conditions shares its path with another
  (`Path.EveryPathIsInvertible`).
- **Directories.** After the directory step all ancestors of a file exist if and
  only if no file bears the name of one of them (`Writer.WriteMakesAncestors`).
- **Directory order.** The emitted totals depend on it if and only if there are more
  distinct process names than table slots
  (`Processes.DirectoryOrderMattersExactlyWhenFull`).
- **Brackets in reader names.** Loading a printed configuration yields all names the
  slots take if and only if none but the last of them contains a `]`
  (`FlatConfig.BracketsAreHarmless`).
- **Lost label pieces.** If allocations fail while a label list is built, its sample
  line parses to the sample if and only if no piece was lost
  (`Pieces.ParsesExactlyWhenComplete`). A lost closing quote makes the line
  unparsable (`Pieces.LostQuoteBreaksLine`), a lost last label goes unnoticed
  (`Pieces.LostLabelIsSilent`); the other lines are never affected
  (`Pieces.ShownLineIsOneLine`).
- **Line feeds in process names.** For names of the kernel's length, at most 15
  characters, the stat line is read correctly if and only if the name has no line
  feed, and with one the process is skipped (`Stat.StatFileExactly`). The bound
  matters: a longer name can spell a stat line of its own
  (`Stat.LongNameIsBelieved`).
- **CPU percentages.** A percentage is above 100 if and only if idle plus iowait ran
  backwards, and negative if and only if the busy time did (`Cpu.RangeExactly`);
  what the single counters do is immaterial.

## Where code and comments disagree

The code is followed in each case.

- `include/rra.h:5-6` speaks of three AVERAGE archives; `src/rra.c:20` and
  `tests/test_rra.c:12-20` have AVERAGE, MIN and MAX for each timespan.
- `src/prom.c:195` says that appends become no-ops once a reallocation has
  failed. A shorter piece that still fits is accepted
  (`DString.AppendsResumeAfterFailure`).
- `src/writer_rrd.c:25` and `include/config.h:9` call the daemon address unused;
  `src/writer_rrd.c:119-139` routes updates through it.

## Model

| member | source | states |
|---|---|---|
| `Snapshot.StepKeepsInv` | src/prom.c:343-399 | Every step of the collector or of any renderer, with any allocator answer and any torn write, keeps the invariant: two non-aliasing buffers, staging holds what was accepted, partial copies are prefixes of the published cycle. |
| `SnapshotRuns.EveryStateIsSafe` | src/prom.c:343-399 | The invariant holds in every state of every interleaving. |
| `SnapshotRuns.NeverAliasedAndAtMostTwo` | src/prom.c:370-377 | At most two buffers are ever allocated; outside the swap staging and published differ, and a buffer being copied is never the staging buffer. |
| `SnapshotRuns.MutualExclusion` | src/prom.c:372-376 | While a renderer is in its critical section the collector is not publishing and no other renderer is inside. |
| `SnapshotRuns.EveryAccessIsValid` | src/prom.c:361-367 | Every element write and every element copy is within a live buffer. |
| `SnapshotRuns.HistoryGrows` | src/prom.c:370-377 | Published cycles are never changed or forgotten later in a run. |
| `SnapshotRuns.RenderReturnsOneCycle` | src/prom.c:379-399 | A finished render's copy is exactly the latest cycle published when it took the lock, never a mixture; it is empty if its own allocation failed. |
| `SnapshotRuns.RendersNeverGoBack` | src/prom.c:379-399 | Of two finished renders the one that locked later returns the snapshot after the same or a larger number of cycles of one history; both copies are such snapshots. |
| `SnapshotRuns.PublishAddsTheCycle` | src/collect.c:43-51 | A publish adds one cycle, whatever allocations failed: exactly the copies that the adds since the last begin stored. They are the emitted metrics in order without the dropped ones, and all of them if none was dropped. |
| `SnapshotRuns.EveryCycleIsPartOfEmitted` | src/prom.c:353-368 | In every state each cycle is a sublist of what was emitted in it. |
| `SnapshotRuns.OnlyFailuresLose` | src/prom.c:353-368 | Without a failed allocation no cycle ever loses a metric. |
| `Metrics.CopyKeepsWhatFits` | src/prom.c:148-161 | A snapshot copy keeps every string that fits its field and a prefix of any other, and all values up to the count, which is clamped to four. |
| `SnapArray.RunIsBounded` | src/prom.c:332-341 | Over any adds and cycles with any failures the capacity stays within 32 or twice the most ever held, and all copying together within the capacity. |
| `SnapArray.AddIsAllOrNothing` | src/prom.c:361-367 | An add is dropped exactly when the array is full and cannot grow. |
| `Prom.SnapBuf.Reserve` | src/prom.c:332-341 | The object follows the growth model and keeps its contents; a failed allocation changes nothing. |
| `Prom.SnapBuf.Add` | src/prom.c:361-367 | Follows the growth model and appends the copy, except exactly when the array is full and cannot grow. |
| `Prom.Store.Begin` | src/prom.c:343-351 | Nothing is staged and the published list is untouched. |
| `Prom.Store.Add` | src/prom.c:353-368 | Stages the copy or, only after a failed allocation, nothing; the published list is untouched. |
| `Prom.Store.Publish` | src/prom.c:370-377 | Staged and published change places, buffers and contents. |
| `Prom.Store.Render` | src/prom.c:379-410 | Empty text for an empty snapshot; otherwise the lines of some order qsort may leave, each whole or missing, none missing if appends do not fail, each with its complete label list if no allocation for one fails. |
| `Prom.ScrapeIsCorrect` | src/prom.c:263-323 | With the built-in table the text parses into blocks of strictly increasing families, each headed once by its HELP and TYPE, holding together exactly the samples of naive rendering. |
| `Prom.PartialScrapeParses` | src/prom.c:200-222 | What survives of a text when appends to it fail still parses, to lines of the full text in order. |
| `Scrapes.EveryScrapeIsCorrect` | src/prom.c:343-410 | In every interleaving, with any failures: the text of a finished render parses into blocks of strictly increasing families, each headed once, whose samples are exactly those of the metrics stored in the last cycle published before it took the lock. |
| `Scrapes.HistoryFollowsSteps` | src/prom.c:370-377 | In every interleaving the last published snapshot is what the adds between the last begin and publish stored, read off the calls alone. |
| `Prom.BuiltinIsGood` | src/prom.c:66-135 | The built-in style meets everything the rendering theorems ask for. |
| `RuleTable.TableIsGood` | src/prom.c:66-111 | Families and labels are legal names of the exposition format and distinct, and the DS label values of every rule are distinct and agree in number with the type table. |
| `Rules.FindRule` | src/prom.c:116-124 | The rule found is for the pair; none means that no rule is. |
| `Rules.FirstRuleWins` | src/prom.c:116-124 | The scan returns the first rule for the pair. |
| `Rules.TypeSpeaksForAllSources` | src/prom.c:126-135 | The TYPE taken from the first data source is right for all of them. |
| `Rules.FamilyDeterminesRule` | src/prom.c:291 | No two rules share a family. |
| `Render.RenderingIsCorrect` | src/prom.c:257-323 | For every style, list and sorted order: the text parses back to blocks in increasing family order, one HELP and TYPE per block taken from a rule, and the multiset of samples is that of rendering metric by metric. |
| `Render.PartialTextParses` | src/prom.c:200-222 | The same for every rendering style. |
| `Render.SortingOrderDoesNotMatter` | src/prom.c:284 | Two orders that qsort may return give the same families with the same heads and the same samples in each. |
| `Render.HeadsOfPartsAgree` | src/prom.c:291-296 | HELP and TYPE do not depend on which sample of the family comes first. |
| `Render.SampleIdentity` | src/prom.c:299-309 | Two samples share family and label set if and only if they are the same data source of the same rule and differ in no exported instance. |
| `Render.SampleIdentityIsUnique` | src/prom.c:299-309 | If metrics of one rule differ in an exported instance, no two samples collide. |
| `Exposition.EscapeHasNoNewline` | src/prom.c:224-235 | Escaped text has no line feed. |
| `Exposition.QuotedRoundTrip` | src/prom.c:224-246 | For every label value, with quotes, backslashes and line feeds, a quoted-string parser recovers it and stops at its closing quote. |
| `Exposition.LabelsRoundTrip` | src/prom.c:237-246 | An ordered label list is recovered exactly. |
| `Exposition.SampleRoundTrip` | src/prom.c:299-318 | A sample line is parsed back to its family, labels and value token. |
| `Exposition.ParsesExactly` | src/prom.c:299-318 | Conversely, a line parses to a sample only if it is the line written for it. |
| `Exposition.LineHasNoNewline` | src/prom.c:291-318 | Every sample and every comment is exactly one line. |
| `Exposition.DocumentRoundTrip` | src/prom.c:286-321 | A whole document is parsed back item by item. |
| `Grouping.GroupingExists` | src/prom.c:286-321 | What the loop writes for sorted parts is a sequence of blocks with each head first and once, families increasing, and every sample in the block of its family. |
| `Grouping.OrderDoesNotMatter` | src/prom.c:284 | That block structure is the same for every sorted permutation of the parts. |
| `Renderer.AppendEscaped` | src/prom.c:225-235 | Appends the escapes of the characters in order, each whole or, only after a failed growth, missing. |
| `Pieces.EscapePiecesSpell` | src/prom.c:225-235 | Together the escapes spell the escaped text. |
| `Renderer.AppendLabel` | src/prom.c:237-246 | Appends a comma unless the list is empty, then the pieces of the label, each whole or missing. |
| `Renderer.BuildLabels` | src/prom.c:300-309 | The pieces of the present instances and the data source label, in order; none is missing unless an allocation fails. |
| `Pieces.LabelPiecesSpell` | src/prom.c:237-246 | Together the pieces spell the label list. |
| `Pieces.ParsesExactlyWhenComplete` | src/prom.c:299-318 | The line written with what is left of the label pieces parses to the sample if and only if no piece was lost. |
| `Pieces.LostQuoteBreaksLine` | src/prom.c:237-246 | Without just the closing quote of the last label the line is unparsable, for any labels. |
| `Pieces.LostLabelIsSilent` | src/prom.c:237-246 | Without all pieces of its last label the line is that of the sample without that label. |
| `Pieces.ShownLineIsOneLine` | src/prom.c:299-318 | Whatever label pieces were lost, what is written for an item is one line, so the other lines are unaffected. |
| `Renderer.EmitSamples` | src/prom.c:299-320 | Appends one line per data source, each whole or missing; its label list holds the pieces that did not fail. |
| `Renderer.EmitEntries` | src/prom.c:286-321 | The loop over the sorted entries writes the specified lines, each whole or missing; label lists lose pieces only if their allocations fail. |
| `Renderer.CollectEntries` | src/prom.c:274-283 | The filter keeps exactly the known metrics, in input order. |
| `Renderer.Qsort` | src/prom.c:284 | A family-sorted permutation; nothing more is promised. |
| `Renderer.RenderToText` | src/prom.c:263-323 | Writes the lines of some order qsort may leave, each whole or missing, and none missing if no allocation fails; label lists lose pieces only if their own allocations fail. |
| `DString.DoublingLoop` | src/prom.c:192-193 | The loop computes the least doubling of the capacity that holds the need. |
| `DString.AppendAllOrNothing` | src/prom.c:200-222 | An append adds all of its text or changes nothing at all. |
| `DString.RefinesConcatenation` | src/prom.c:189-222 | After any appends with any failures the text is the concatenation of the accepted pieces; capacity is at most max(512, 2(len+1)), the terminator fits, and all copying together stays below the capacity. |
| `DString.AppendsResumeAfterFailure` | src/prom.c:195 | Appends after a failed growth are not always no-ops. |
| `DString.Text.ReserveRoom` | src/prom.c:189-198 | Grows as specified, keeping the text and leaving new bytes unspecified, or leaves the string as it was. |
| `DString.Text.Add` | src/prom.c:200-222 | The object follows the value model on every append and stays terminated. |
| `Types.LookupWellFormed` | src/types.c:48-59 | Every type found has one to four sources with short separator-free names, all of one kind. |
| `Types.LookupFinds` | src/types.c:27-59 | Every table entry is found under its own name. |
| `Path.AppendSeg` | src/path.c:9-16 | Succeeds exactly when segment and terminator fit; on failure the offset does not move. |
| `Path.MetricToPath` | src/path.c:17-31 | Succeeds exactly when the whole path and the file part fit, and then the buffer holds exactly that path. |
| `Path.PathRoundTrip` | src/path.c:17-31 | The inverse recovers plugin, type and both instances if and only if the plugin has no dash, the type neither dash nor slash, and the type instance no slash; the plugin instance is arbitrary. |
| `Path.PathInjective` | src/path.c:17-31 | Equal paths of such metrics mean equal identities. |
| `Path.TypeIsRecoverable` | src/path.c:24-27 | The type can be read off the path if and only if no slash in the type instance hides it. |
| `Path.SlashInTypeInstanceCollides` | src/path.c:24-27 | Two metrics of different types with one path. |
| `Path.EveryPathIsInvertible` | src/path.c:17-31 | For every metric there is one with the same path whose identity the inverse recovers, and it has the identity of the first if and only if the inverse recovers that, too. |
| `Path.DashInPluginCollides` | src/path.c:9-16 | Every metric whose plugin has a dash shares its path with one whose plugin has none. |
| `Rra.ArchivesAreGood` | src/rra.c:70-87 | For any positive step and row target and any spans: the length is at least 1, the rows cover the widened span and are the least that do, there are at least the target rows and, after the first span, at most twice as many. |
| `Rra.LengthsAreMonotone` | src/rra.c:80-86 | Longer spans are consolidated at least as much. |
| `Rra.StandardArchives` | src/rra.c:6-21 | The built-in spans give lengths 1, 7, 50 and rows 2400, 2469, 2420. |
| `Rra.NeverExhausted` | src/rra.c:23-25 | With at most 4 sources and names of at most 19 characters all arguments fit the static buffer. |
| `Rra.ReadBack` | src/rra.c:50-98 | The argument pointers name disjoint terminated strings that read back as the lines. |
| `Rra.RraArgs` | src/rra.c:38-102 | Fails exactly for a missing type, too small a vector or too small a buffer; otherwise the count and the packed arguments are the DS lines and then AVERAGE, MIN, MAX of each span. |
| `Rra.TypeArgs` | src/writer_rrd.c:188-196 | For every well-formed type the arguments handed to librrd are exactly those lines. |
| `Writer.FmtValues` | src/writer_rrd.c:62-86 | Fails exactly on a count mismatch or when the text does not fit; otherwise the buffer holds the update text. |
| `Writer.ValuesRoundTrip` | src/writer_rrd.c:74-84 | The update text splits into "N" and one field per data source. |
| `Writer.AncestorsUpto` | src/writer_rrd.c:47-60 | With no other error and no file in the way, each mkdir of the loop finds its parent in place. |
| `Writer.AllAncestorsExist` | src/writer_rrd.c:39-60 | If mkdir fails only with EEXIST, the directory and all its ancestors exist afterwards if and only if none of them is the name of a file. |
| `Writer.GuardsNeverTrigger` | src/writer_rrd.c:174-184 | For paths the builder accepts the length guards never skip the directory step. |
| `Writer.WriteMakesAncestors` | src/writer_rrd.c:174-184 | The same for the directories of any path the builder accepts. |
| `Writer.RrdWriter.constructor` | src/writer_rrd.c:16-33 | Settings are cut to their fields; nothing is written yet. |
| `Writer.RrdWriter.MakeDirs` | src/writer_rrd.c:39-60 | The loop that cuts and restores its buffer makes exactly the directories of the specification. |
| `Writer.RrdWriter.DaemonConnect` | src/writer_rrd.c:92-106 | Succeeds without a daemon or when connected; connects at most once. |
| `Writer.RrdWriter.UpdateFile` | src/writer_rrd.c:119-139 | Daemon first, direct on any daemon failure; neither accepts a path that is no file. |
| `Writer.RrdWriter.CreateFile` | src/writer_rrd.c:186-201 | A created file has the schema lines of its type; a failed creation leaves no file. |
| `Writer.RrdWriter.WriteMetric` | src/writer_rrd.c:154-210 | A write does exactly the five steps, with each early return. |
| `WriterRun.UpdateExactlyOnce` | src/writer_rrd.c:108-139 | Success if and only if one record is added; failure only if the direct update failed too; no daemon call without an address. |
| `WriterRun.WriteKeepsConsistent` | src/writer_rrd.c:154-210 | Any write of a metric whose schema survives in its path, whatever fails in it, keeps files and log consistent. |
| `WriterRun.EveryRunIsConsistent` | src/writer_rrd.c:154-210 | Over every run of such metrics from an empty directory each file has the schema of the type its path names, and each update targets an existing file with exactly its number of values. |
| `WriterRun.FirstWriteIsConsistentExactly` | src/writer_rrd.c:160-201 | Conversely, a first write whose file can be created leaves a consistent disk if and only if the schema survives. |
| `WriterRun.ConsistentExactlyWhenSchemasSurvive` | src/writer_rrd.c:154-210 | For any set of metrics: all runs over it are consistent if and only if the schema of each stored metric survives in its path. |
| `WriterRun.SchemaIsUnique` | src/writer_rrd.c:160-201 | For any set of metrics: in all runs each file has the schema of every metric that maps to it, if and only if stored metrics that share a path have the same sources. |
| `WriterRun.UpdatesFitExactlyWhenCountsAgree` | src/writer_rrd.c:160-210 | For any set of metrics: in all runs every accepted update has its file's number of values, if and only if stored and recorded metrics that share a path have equally many sources. |
| `WriterRun.SourcesOfLines` | src/rra.c:54-61 | The creation arguments declare exactly the sources of the type. |
| `WriterRun.LinesInjective` | src/rra.c:54-61 | Equal creation arguments mean equal sources. |
| `WriterRun.EverySuccessIsRecordedOnce` | src/writer_rrd.c:119-210 | Over every run the accepted updates are, in order and with path and values, exactly those of the successful writes; without an address the daemon is never called. |
| `WriterRun.LogOnlyGrows` | src/writer_rrd.c:119-210 | Accepted updates are never lost or reordered. |
| `WriterRun.FilesAreNoDirectories` | src/writer_rrd.c:174-201 | No path is ever both a file and a directory. |
| `WriterRun.SlashBreaksConsistency` | src/writer_rrd.c:160-171 | Two metrics that violate the conditions: for any printer whose gauges are short, with nothing failing, three values reach a one-source file. |
| `Emitters.PluginOfPath` | src/path.c:17-31 | A plugin without dash and slash can be read off the path. |
| `Emitters.SharedFileMeansSameType` | src/readers/processes.c:214-237 | Metrics of the readers that share a file have the same type. |
| `Emitters.ReadersAgree` | src/readers/interface.c:91-109 | The metrics of all readers, with any instances, meet the conditions for unique schemas and fitting updates. |
| `Emitters.EveryReaderRunFits` | src/writer_rrd.c:154-210 | Over every run of the readers each file has the schema of every metric that maps to it and every update fits. |
| `Emitters.ZoneTypeCanMislead` | src/readers/thermal.c:97-103 | A thermal zone type with a slash, of a length that is stored, makes a file name show another type; its first write, if the file can be created, leaves an inconsistent disk. |
| `Stat.ReadComm` | src/readers/processes.c:129-142 | A name is non-empty and at most 31 characters. |
| `Stat.CommRoundTrip` | src/readers/processes.c:129-142 | A name is read back if and only if it is neither empty nor longer than 31 characters, has no line feed and does not end in a carriage return. |
| `Stat.StatIgnoresComm` | src/readers/processes.c:156-179 | The split on the last parenthesis recovers the three fields whatever the name contains. |
| `Stat.StatFileRoundTrip` | src/readers/processes.c:144-179 | So does reading the file, for names without line feed and lines that fit. |
| `Stat.StatmRoundTrip` | src/readers/processes.c:187-197 | The resident pages are read back. |
| `Stat.NewlineInCommSkips` | src/readers/processes.c:150-176 | Any name of at most 15 characters with a line feed makes the reader skip the process. |
| `Stat.StatFileExactly` | src/readers/processes.c:144-179 | For names of at most 15 characters the three fields are read if and only if the name has no line feed. |
| `Stat.LongNameIsBelieved` | src/readers/processes.c:150-179 | A longer name can spell a stat line of its own, whose numbers are then taken. |
| `Processes.PrintedProcessIsSampled` | src/readers/processes.c:116-200 | From the three files as printed, the sample holds the name without trailing line ends, bytes, times and threads; a process with nothing else in its name is skipped. |
| `Processes.AggregateIsGroupBy` | src/readers/processes.c:46-66 | The table is the group-by of the first 256 names in order of appearance, with sums over exactly their processes. |
| `Processes.SlotsAreGroups` | src/readers/processes.c:112-211 | With room for all names the slots are exactly the groups, without repetition. |
| `Processes.OrderDoesNotMatter` | src/readers/processes.c:112-211 | Then permuted samples give permuted slots. |
| `Processes.OrderMattersExactlyWhenFull` | src/readers/processes.c:53-55 | The result is independent of order if and only if the names fit the table. |
| `Processes.DirectoryOrderDoesNotMatter` | src/readers/processes.c:112-237 | From directory to emitted metrics, order makes no difference while the names fit. |
| `Processes.DirectoryOrderMattersExactlyWhenFull` | src/readers/processes.c:99-240 | The emitted metrics are independent of the order of the directory if and only if the names fit the table. |
| `Processes.AggLookup` | src/readers/processes.c:46-66 | The slot of the name, a fresh zero slot, or -1 exactly when the table is full. |
| `Processes.AddProcess` | src/readers/processes.c:202-210 | One process is summed into its slot and nothing else changes. |
| `Processes.Collect` | src/readers/processes.c:112-212 | The directory loop leaves the aggregate of the readable processes. |
| `Processes.ReadProcesses` | src/readers/processes.c:99-240 | Emits three metrics per name in table order; fails exactly if the directory cannot be opened. |
| `Cpu.CpuReader.ReadSample` | src/readers/cpu.c:24-81 | One reading moves the state and emits as specified; a failed reading changes nothing. |
| `Cpu.StateIsLastSample` | src/readers/cpu.c:78-80 | The state is always that of the last successful reading. |
| `Cpu.RangeExactly` | src/readers/cpu.c:59-65 | A percentage is negative if and only if the busy time ran backwards, and above 100 if and only if idle plus iowait did. |
| `Cpu.EmitsExactly` | src/readers/cpu.c:59-76 | In any run a value is emitted exactly after an earlier reading with non-negative busy time when the total advanced, and lies in 0..100 if and only if neither busy nor idle time ran backwards. |
| `Cpu.MonotoneRunsStayInRange` | src/readers/cpu.c:9-76 | Counters that never run backwards are enough for the range. |
| `Cpu.PercentagesTelescope` | src/readers/cpu.c:59-80 | Emitted percentages weighted by their deltas add up to 100 times the overall busy delta. |
| `Cpu.BackwardsIowaitOverflows` | src/readers/cpu.c:59-65 | A pair of readings whose iowait runs backwards and whose percentage is above 100. |
| `Quoted.MatchIsAligned` | src/config.c:7-10 | A quoted key can match only at a quote, and then spans one whole piece. |
| `Quoted.KeySearch` | src/config.c:7-10 | The search finds exactly the first quoted piece equal to the key. |
| `Config.ScanLoop` | src/config.c:58-70 | The cursor loop collects what repeated scan turns collect and never more than the slots. |
| `Config.LoadReaders` | src/config.c:54-71 | The names between the brackets. |
| `Config.CollectConfig.Load` | src/config.c:27-74 | Defaults for an unreadable file, otherwise the parsed settings; at most 16 readers. |
| `FlatConfig.StringFieldRoundTrip` | src/config.c:7-19 | A printed string field is read back, cut to its array; an absent one is left alone. |
| `FlatConfig.IntervalRoundTrip` | src/config.c:20-26 | A printed integer field is read back; an absent one gives the default. |
| `FlatConfig.ReadersRoundTrip` | src/config.c:54-71 | The reader names are read back up to a bracket and the slots. |
| `FlatConfig.ParserInvertsPrinter` | src/config.c:42-71 | Loading any printed flat configuration yields what its fields say, in any order. |
| `FlatConfig.BracketsAreHarmless` | src/config.c:54-71 | Loading a printed configuration with a reader list gives all names the 16 slots take if and only if none but the last of them has a closing bracket. |
| `Registry.Contains` | src/registry.c:67-73 | The duplicate scan answers membership. |
| `Registry.BuildEnabled` | src/registry.c:44-82 | The output is the first max of the de-duplicated known requests, or of the registry if there are none. |
| `Registry.DedupIsASet` | src/registry.c:64-79 | De-duplication keeps every reader and repeats none. |
| `Collect.EnabledFits` | src/collect.c:31-36 | No parsed configuration overflows the 32 slots. |
| `Collect.Resolve` | src/collect.c:27-36 | The enabled list is that of the configuration; neither bound cuts anything. |
| `Collect.Collector.EmitCb` | src/collect.c:14-21 | The result is the writer's alone; the metric is staged whatever the writer returns, and lost only if an allocation fails. |
| `Collect.Collector.RunCycle` | src/collect.c:39-51 | After a cycle the published list holds copies of what the enabled readers emitted in it, in order, all of them unless an allocation fails; the disk has seen everything. |
| `Collect.Collector.Run` | src/collect.c:38-56 | Over all cycles the disk is that of the whole history, the last cycle is published, and with metrics of the readers' kinds every file has one schema and every update fits. |
| `Collect.Collector.RunThenScrape` | src/prom.c:379-410 | A scrape after a run parses into blocks that hold together exactly the samples of the known metrics of the last cycle. |
| `Readers.ModelledRunsFit` | src/collect.c:38-56 | A run of the cpu and processes readers, whatever the kernel shows and whatever fails, leaves one schema per file and fitting updates. |
| `Series.NoSeriesTwice` | src/prom.c:299-309 | In every cycle of the cpu and processes readers, whatever the configuration, the kernel and the allocator do: no two samples of a scrape share family and labels. |

## Left out

- HTTP: sockets, polling, address parsing and request handling are I/O; a scrape is a call of the renderer.
- librrd and rrdcached internals: they accept or reject; a rejected daemon update is taken to have no effect.
- Floating point: values are reals, printers are parameters, and the floor and ceiling of double quotients are integer divisions. NaN and infinities are not modelled.
- The load, uptime, memory, swap, thermal, df, disk, interface and tcpconns readers: straight-line parsing that would add only easy members.
- The line scan of the CPU reader: a reading is the ten counters or nothing.
- Signals, sleeping, logging, main and the flush in writer_shutdown; the running flag is the number of cycles.
- prom_render_metrics, including its behaviour on an empty list; empty snapshots are covered through the store.
- Overflow of size_t and of the counters, including the int sums of processes and threads; totals are unbounded.
- NULL plugin and type names, which no reader emits, and NUL inside strings.
- Reads of array elements beyond ds_count: such values are unspecified in C and zero or absent here.
- Aliasing of path strings such as `a//b` or `..`: files are keyed by their path string.
- Malformed or nested JSON: the parser model covers any text, but the round trip speaks of printed flat configurations.
- The used flag of aggregation slots, which is 1 for every slot below the count.
- The interleaved model and the store object are two views of the same calls; that each call of the object is the sequence of its steps is not proved.
- DString.Text.ReserveRoom: the buffer is a sequence the object reassigns, so aliasing of old and new blocks is not captured.
- Prom.SnapBuf.Reserve: likewise for the array.
- Rra.RraArgs: excludes a type whose DS lines alone overflow the static buffer, because the code does not check for it there and would write past the end; no entry of the type table comes near (`Rra.NeverExhausted`).
- WriterRun.EveryRunIsConsistent: assumes that no other program changes the data directory during the run, as do all results about runs.
