# Bounded embedding pipeline: a verified model

The repository is a code-intelligence indexer. This project models the parts of it whose
correctness is least visible from reading one function, and proves what they promise:

- **Document splitting** (`Utf8`, `EmbeddingInput`): a body is cut into pieces that each fit
  an input budget beside an uncut heading. Text is a byte sequence well formed under section 4
  of RFC 3629; the tokenizer is an arbitrary count that may fail and need not grow with length.
- **Source representation** (`SourceLines`, `Excerpts`, `Selection`, `SymbolRepresentation`,
  `Capture`): parser ranges become excerpts under a per-file byte budget; excerpts go through
  the splitter, and at most eight of the resulting segments are embedded.
- **The embedding cache** (`FifoOrder`, `EmbeddingCache`, `RebuildPlanPressure`, `RebuildPlan`):
  a map beside a first-in-first-out queue, saved to and loaded from a bounded file, what
  rescanning it costs, and the counters of the offline plan that consults it.
- **Mutation and worker protocol** (`Runtime`): per-owner gates behind weak entries, a pool of
  four permits and a reader-writer lock, as a transition system over calls, grants,
  cancellations and panics.
- **Smaller cores**: the indexed-path list (`IndexedPaths`), the repository inventory
  (`Sorting`, `Inventory`) and supertype reachability (`SupplyGraph`).

Loops over local variables and objects updated in place are methods and classes here; each is
proved equal to a function, or against a condition, about which the lemmas then speak.

Where code and comments differ, the model follows the code:

- src/runtime.rs:62-63 says partial state is published on errors too. A mutation whose
  replaced facade fails `restrict_workspace` publishes nothing (src/runtime.rs:82-84); it is
  the `Refused` outcome. `Runtime.RefusalIsExact` says when, in every reachable state: exactly
  when the body, run on the published value, left a boundary that was set, and the policy does
  not admit what it left to that boundary. `Runtime.RefusalHappens` is a run that ends so.
- The warning at src/rebuild_plan.rs:397 says counts cover prepared inputs only. A doc comment
  that the budget rejects is still counted as an input (src/rebuild_plan.rs:331-341);
  `RebuildPlan.SymbolsAreCounted` keeps it in the stream and among the rejections.
- The halving search calls its probe limit 128 (src/embedding_input.rs:18), which only the
  fallback tests; `HalvingSearch` shows halving alone ends within 21 probes, so the limit holds
  for both together.

The middle-excerpt guarantee has an exact threshold: for a range too long to keep whole, its
middle byte always survives exactly when the allowance is at least 24 bytes
(`Excerpts.MidpointThreshold`; the counterexample below it is 24 bytes of four-byte characters).

## Model

| member | source | states |
|---|---|---|
| Utf8.WellFormedIsDecodable | src/embedding_input.rs:168-170 | The boundary test used on both sides of every cut agrees with decoding character by character from the front |
| Utf8.CharactersEncode | src/embedding_input.rs:168-170 | The characters recognised are exactly the shortest encodings of Unicode scalar values, bit by bit (RFC 3629, section 3) |
| Utf8.BoundaryIs | src/embedding_input.rs:168-170 | A boundary is exactly a place where text can be cut into two texts |
| Utf8.AlignDown | src/embedding_input.rs:247-249 | Walking back ends at the last character boundary at or before the offset |
| Utf8.AlignUp | src/symbol_representation.rs:287-289 | Walking forward ends at the first boundary at or after the offset |
| Utf8.AlignmentGap | src/symbol_representation.rs:223-228 | Aligning moves an offset by at most three bytes in either direction |
| EmbeddingInput.DocumentOutputBytes | src/embedding_input.rs:22-39 | Accepts exactly at most 65536 parts whose heading copies and body together take at most 64 times one heading and body, or 16384 bytes, saturating; returns that size |
| EmbeddingInput.FeasibleIs | src/embedding_input.rs:22-39 | A feasible byte split in plain terms: a partition, each piece with the heading within budget and one mebibyte, at most 65536 pieces, and the output within the 64-fold allowance in numbers |
| EmbeddingInput.SixtyFourPieces | src/embedding_input.rs:29-32 | Any split of at most 64 pieces within the capacity is affordable, whatever the sizes |
| EmbeddingInput.BeyondSixtyFour | src/embedding_input.rs:29-32 | Beyond 16384 bytes of output, every heading after the 64th is made up for by the body, 63 times over: no larger factor would do |
| EmbeddingInput.DocumentByteRanges | src/embedding_input.rs:230-260 | Succeeds if and only if some partition meets the budget, the part limit and the output allowance, and whenever one of at most 64 pieces fits the capacity; then fills every piece to capacity and uses the fewest pieces of any partition within the budget; each error excludes every partition on its own ground, in numbers |
| EmbeddingInput.GreedyStaysAhead | src/embedding_input.rs:242-258 | After as many pieces, the filled-to-capacity cut is never behind any other partition |
| EmbeddingInput.FewestPieces | src/embedding_input.rs:242-258 | No other partition within the capacity has fewer pieces |
| EmbeddingInput.PartLimitBinds | src/embedding_input.rs:243-245 | Running out of parts means every partition needs more than 65536 |
| EmbeddingInput.CharacterBinds | src/embedding_input.rs:250-252 | A character wider than the capacity leaves no partition at all |
| EmbeddingInput.OutputLimitBinds | src/embedding_input.rs:254-255 | Running out of output allowance means every partition would exceed it |
| EmbeddingInput.InputBudget.Validate | src/embedding_input.rs:296-318 | Accepts a batch if and only if every text is accepted; otherwise names the first that is not and why |
| EmbeddingInput.DocumentProbe | src/embedding_input.rs:262-277 | Charges heading and piece before counting; a refused charge counts nothing; within the byte limit the answer is that of validation |
| EmbeddingInput.HalvingSearch | src/embedding_input.rs:178-192 | Probes exactly the halving sequence until the first fit, in at most 21 probes, and pays for each |
| EmbeddingInput.FallbackSearch | src/embedding_input.rs:196-216 | Probes the aligned prefixes that halving left out, shortest first, to the first fit or the 128th probe |
| EmbeddingInput.OthersAreAll | src/embedding_input.rs:196-203 | The probe order misses no aligned prefix of the window |
| EmbeddingInput.FindPiece | src/embedding_input.rs:174-219 | A search without result below the probe limit has shown that no aligned prefix of the window fits; the first character never fits |
| EmbeddingInput.WindowHoldsACharacter | src/embedding_input.rs:161-173 | The carried window never falls below the smaller of four bytes and the capacity |
| EmbeddingInput.SearchFrom | src/embedding_input.rs:166-220 | No room for the next character is reported only when it is wider than the whole capacity; other failures come with the probe that was not paid for, could not be counted, or never fitted |
| EmbeddingInput.TokenRanges | src/embedding_input.rs:148-226 | A successful token search is a partition into accepted pieces; all probes together stay within 64 times heading and body, or 16384 bytes, and within 128 per piece; every failure is backed by its record |
| EmbeddingInput.WorkRunsOut | src/embedding_input.rs:153-157 | Work is reported exhausted only when the probes made and the next one in the order together exceed that same number |
| EmbeddingInput.DocumentRanges | src/embedding_input.rs:136-227 | For any count function, success yields contiguous non-empty aligned ranges covering the body, each with the heading within one mebibyte and within the tokenizer's own count or the byte limit, whose output size is accepted, and which are the splitter's one possible answer; for byte budgets success if and only if a partition exists |
| EmbeddingInput.LogPaysForOutput | src/embedding_input.rs:22-39 | The work already paid for covers the output of every piece taken, so a successful token split passes the output check |
| EmbeddingInput.OneOutcome | src/embedding_input.rs:160-226 | Whatever the count function, the recorded search admits one successful result: each piece is the first fit in the probe order from where the one before ended |
| EmbeddingInput.SplitterIsUnique | src/embedding_input.rs:136-260 | Budget, heading and body determine the ranges of a successful split, on either path |
| EmbeddingInput.SplitterTakesFewest | src/embedding_input.rs:230-260 | Under a byte budget the splitter's answer has the fewest pieces of any split within the capacity |
| EmbeddingInput.FailureExcludesSuccess | src/embedding_input.rs:162-226 | The recorded evidence of a failed token search and the record of a successful one never exist for the same text |
| EmbeddingInput.OneFailure | src/embedding_input.rs:148-226 | Two failing records of one text agree in every search, in the search in progress and in the error, so with `OneOutcome` and `FailureExcludesSuccess` a token split has one possible outcome |
| EmbeddingInput.SingleCharactersSuffice | src/embedding_input.rs:162-219 | Where every single character is accepted beside the heading, only the part limit, the work allowance or the tokenizer can make a split fail |
| SourceLines.LineStarts | src/symbol_representation.rs:317-318 | The table holds zero and the offset after each newline |
| SourceLines.OffsetIsAt | src/symbol_representation.rs:260-267 | A line and byte column resolve to an offset if and only if that offset is a boundary at that line and column before the line's trailing breaks |
| SourceLines.SourceRangeIsAt | src/symbol_representation.rs:259-271 | A parser range resolves to exactly the source between its two positions, or to nothing |
| Excerpts.TrimWindow | src/symbol_representation.rs:221-228 | The two trimming walks end at the first boundary inside and the last boundary inside, or meet |
| Excerpts.TakeFragments | src/symbol_representation.rs:273-304 | Computes the whole range or its aligned head and tail |
| Excerpts.TakeMiddleFragments | src/symbol_representation.rs:206-237 | Computes the whole range or three aligned windows of a third of the limit |
| Excerpts.FragmentsAreExcerpts | src/symbol_representation.rs:273-304 | Head and tail are non-empty exact slices, ordered, disjoint, aligned and within the smaller of allowance and 16384 bytes |
| Excerpts.FragmentsFill | src/symbol_representation.rs:285-303 | From a limit of eight bytes on, head and tail keep both ends of the range and lose at most three bytes of the limit |
| Excerpts.MiddleFragmentsAreExcerpts | src/symbol_representation.rs:206-237 | The same for head, middle and tail |
| Excerpts.MiddleIsKept | src/symbol_representation.rs:211-236 | From eight-byte windows on, or when the range is kept whole, the excerpts keep both ends and the middle byte |
| Excerpts.MidpointThreshold | src/symbol_representation.rs:211-236 | Every long range of every text keeps its middle byte if and only if the allowance reaches 24 bytes |
| Selection.SelectedIndicesSelect | src/symbol_representation.rs:177-183 | Distinct ascending in-range indices of exact size, with both ends once two are allowed |
| Selection.SelectedIndicesAre | src/symbol_representation.rs:177-183 | Of more indices than wanted, exactly a prefix and a suffix are taken: the prefix as long as the suffix, or one longer |
| Selection.FirstIsUnique | src/symbol_representation.rs:193-202 | Taking candidates until enough are distinct has one possible result |
| Selection.SpreadIsEven | src/symbol_representation.rs:193-196 | The spread runs from the first index to the last, ascending, in steps that differ by at most one |
| Selection.DistributedIndices | src/symbol_representation.rs:185-204 | Exact size, ascending, and the first distinct of ends, middle, even spread and the rest; ends, middle and all but the last three members of the spread are always in |
| Selection.CentreFirst | src/symbol_representation.rs:145-156 | Exact size, ascending, never without the centre or the ends; from three on it is the distributed selection, in which a centre outside it replaces the last member but one |
| SymbolRepresentation.FlatOrdered | src/symbol_representation.rs:129-134 | Pieces of successive fragments are ordered and disjoint |
| SymbolRepresentation.SplitAll | src/symbol_representation.rs:129-134 | Gives every fragment's pieces exactly as the splitter takes them, or fails with the first failing fragment's own evidence; for byte budgets succeeds if and only if every fragment can be split |
| SymbolRepresentation.Inputs | src/symbol_representation.rs:121-174 | On success exactly the smaller of eight and the number of pieces the splitter takes, each the header followed by its piece and accepted; the first version takes all of up to eight pieces, otherwise exactly the first four and last four; the second is centred on the middle; only a header or a split can fail, never the final validation |
| SymbolRepresentation.InputsAreDetermined | src/symbol_representation.rs:121-174 | A source and a budget admit one list of inputs: splits, pieces, selection and texts are all determined |
| SymbolRepresentation.SplitExcludesFailure | src/symbol_representation.rs:129-134 | A fragment the splitter answers for has no evidence of a failure |
| SymbolRepresentation.InputsAreSource | src/symbol_representation.rs:159-173 | Each input is the header followed by the source bytes of its reported range, and the ranges ascend without overlap |
| SymbolRepresentation.MiddleReachesInputs | src/symbol_representation.rs:135-173 | Windows, trimming, splitting and selection together: a successful second-version embedding contains a segment over the middle byte, and every segment is exact source of the range, in order |
| Capture.VersionIsReplaced | src/symbol_representation.rs:355 | Replacing the version marker changes the header's first line whatever the fields contain |
| Capture.EligibleIs | src/symbol_representation.rs:37-52 | Under the first policy a comment decides and the kind does not matter; under the others exactly modules, variables, constants, fields, parameters and macros are left out and comments do not matter |
| Capture.FieldIs | src/symbol_representation.rs:239-257 | A value within the limit is written whole; a longer one as its longest whole-character prefix, at most three bytes short of the limit, and flagged; only a missing value writes nothing |
| Capture.HeaderIs | src/symbol_representation.rs:336-374 | Every header consists of exactly those lines, in order |
| Capture.HeaderDescribes | src/symbol_representation.rs:391-396 | A retained header is those lines and the coverage line for what was found |
| Capture.BuildHeader | src/symbol_representation.rs:336-374 | The header built in place holds, in order and line by line, the version's first lines and path, module, owner, name, kind, signature, documentation, and for the second version basis, language and role, each as `FieldIs` says of its own value |
| Capture.HeaderIsText | src/symbol_representation.rs:239-257 | Every header is well-formed text of at most 1617 bytes, whatever the names and paths |
| Capture.CoverageFits | src/symbol_representation.rs:375-396 | The reserved 128 bytes always cover the coverage line |
| Capture.ExcerptIsExact | src/symbol_representation.rs:382-389 | A symbol's excerpts are exact source between its own two positions, within the bytes left |
| Capture.ExcerptKeepsMiddle | src/symbol_representation.rs:384-385 | Captured second-version excerpts keep the middle byte wherever their windows can |
| Capture.SymbolLedger | src/symbol_representation.rs:377-391 | The saturating subtraction never saturates; what is left plus everything charged is what was there |
| Capture.FileBudget | src/symbol_representation.rs:329-402 | Over all symbols of a file, retained headers and fragments never exceed one mebibyte |
| Capture.CapturedSymbol | src/symbol_representation.rs:330-401 | A symbol gets a source if and only if its policy takes it and its header with 128 bytes fits the bytes left, the first one out of a whole mebibyte; the header names path, name, signature and the rest in plain terms; the policy is recorded and nothing else of the symbol changes |
| Capture.EmbedCaptured | src/symbol_representation.rs:121-402 | From parser range to embedding, under every policy: a successful preparation of a captured symbol is its header alone or exact source of its own range in order; under the second version it covers the range's middle byte wherever the symbol's share of the budget keeps it |
| Capture.ParsedFile.CaptureWithPolicy | src/symbol_representation.rs:311-402 | The in-place pass leaves every symbol as the specification of the whole file says, whose headers and sources `CapturedSymbol` describes in plain terms |
| EmbeddingCache.CapacityIsTight | src/embedding_cache.rs:122-144 | A full cache fits both limits, one more entry would break one, and there is room at all exactly for dimensions 1 to 16384 |
| EmbeddingCache.InsertedKeepsInv | src/embedding_cache.rs:207-227 | Queue and map hold the same keys, each once, within capacity, with storable vectors |
| EmbeddingCache.ReinsertKeepsRank | src/embedding_cache.rs:218-227 | A known key only gets its new value: order, other entries and eviction rank stay |
| EmbeddingCache.InsertEvictsOldest | src/embedding_cache.rs:218-227 | A new key enters at the back; exactly the oldest leaves, only from a full cache |
| EmbeddingCache.EvictionStep | src/embedding_cache.rs:222-226 | Over capacity the queue is never empty, so the eviction loop progresses |
| EmbeddingCache.Cache.Insert | src/embedding_cache.rs:207-216 | Admits exactly storable vectors of a cache with room; a refusal changes nothing |
| EmbeddingCache.Cache.InsertHash | src/embedding_cache.rs:218-227 | The loop ends in the specified contents |
| EmbeddingCache.BoundedEmbedding | src/embedding_cache.rs:58-84 | Decodes exactly the vectors within the dimension limit |
| EmbeddingCache.BoundedEntries | src/embedding_cache.rs:86-115 | Decodes exactly the lists within entry, memory, vector and key limits |
| EmbeddingCache.DecoderTakesCapacity | src/embedding_cache.rs:86-144 | Of well-formed entries of one storable dimension the decoder takes a list exactly when it has no more entries than the cache may hold |
| EmbeddingCache.KeysAreHex | src/embedding_cache.rs:297-299 | A text is a usable key exactly when it is 64 hexadecimal digits |
| EmbeddingCache.LimitedWrite | src/embedding_cache.rs:266-285 | Writing in chunks succeeds if and only if the whole fits the limit |
| EmbeddingCache.Cache.Save | src/embedding_cache.rs:229-263 | Writes the entries in queue order, unless the file would exceed its limit |
| EmbeddingCache.Load | src/embedding_cache.rs:146-201 | Any file whatever gives a cache that keeps the invariant, as specified by the decoded entries; it holds anything only if the file is a document of format 1 and preprocessing 2 for the very model and dimension asked for |
| EmbeddingCache.LoadedKeepsInv | src/embedding_cache.rs:146-201 | No file content can break the invariant or the capacity |
| EmbeddingCache.DecoderAcceptsSaved | src/embedding_cache.rs:86-144 | The capacity arithmetic guarantees the bounded decoder never rejects a saved cache |
| EmbeddingCache.SaveThenLoad | src/embedding_cache.rs:146-263 | Saving and loading restores the same map in the same order |
| EmbeddingCache.SavedElsewhere | src/embedding_cache.rs:184-191 | A cache saved under one model and dimension is restored under these and comes back empty under any other |
| RebuildPlanPressure.NoAdmissionIsSnapshot | src/rebuild_plan_pressure.rs:21-39 | Without admission a scan hits exactly the snapshot, for any stream |
| RebuildPlanPressure.AdmissionNeverGains | src/rebuild_plan_pressure.rs:21-39 | On a stream without repetition admission never hits more than the snapshot |
| RebuildPlanPressure.ForwardScanMissesAll | src/rebuild_plan_pressure.rs:42-66 | For every capacity, batch size and input count: a second in-order scan hits nothing if and only if the inputs outnumber the capacity by a whole batch |
| RebuildPlanPressure.ReverseScanHitsResidents | src/rebuild_plan_pressure.rs:50-63 | A second scan in reverse order hits exactly the smaller of input count and capacity |
| RebuildPlanPressure.Populated | src/rebuild_plan_pressure.rs:12-19 | Every insertion is admitted and the queue is the inputs pushed in order |
| RebuildPlanPressure.Scan | src/rebuild_plan_pressure.rs:21-39 | The batched loop over the real cache counts the specified hits |
| RebuildPlanPressure.PressureBoundary | src/rebuild_plan_pressure.rs:42-103 | Both scans over the production cache, also after saving and loading it |
| RebuildPlan.Report.RecordInput | src/rebuild_plan.rs:157-186 | Each counter stays what the whole stream so far says; fails exactly beyond 100000 distinct inputs |
| RebuildPlan.InputCountsAddUp | src/rebuild_plan.rs:157-186 | Hits and misses make up the inputs, and unique misses are the distinct inputs absent from the cache |
| RebuildPlan.FirstOccurrencesAreAll | src/rebuild_plan.rs:165-173 | First occurrences are the distinct inputs, each once, so unique bytes sum over them |
| RebuildPlan.SymbolCountsAddUp | src/rebuild_plan.rs:323-365 | Eligible symbols are candidates plus missing body sources, and every symbol is accounted for |
| RebuildPlan.MissingAreCounted | src/rebuild_plan.rs:371-377 | The counters that decide the status are zero exactly when no outcome is missing or rejected |
| RebuildPlan.Report.CountSymbol | src/rebuild_plan.rs:323-365 | Each branch counts what its outcome says and records what the symbol prepares |
| RebuildPlan.Report.Close | src/rebuild_plan.rs:367-383 | Unique and duplicate inputs make up the inputs; the status table follows from what is missing or rejected |
| RebuildPlan.Inspect | src/rebuild_plan.rs:313-400 | The final report agrees with one outcome per symbol of the native files and holds at most 100000 distinct inputs; every symbol counter is a number of native symbols, as `SymbolsAreCounted` says; it is complete if and only if nothing is unknown, generic, missing or rejected; over captured files it retains at most a mebibyte for each file parsed; it fails only on an unusable file, or with outcomes of the first symbols whose inputs exceed that limit |
| RebuildPlan.SymbolsAreCounted | src/rebuild_plan.rs:323-365 | Under the comment policy the inputs are all comments, accepted or not, and rejections are the comments the budget refuses; under a body policy missing, captured, header-only and rejected counters are the numbers of eligible symbols without source, with one, with one without fragments, and with one the budget has no inputs for |
| RebuildPlan.OutcomesAgree | src/rebuild_plan.rs:323-365 | Policy, budget and symbol determine the symbol's outcome, prepared inputs and rejection included |
| RebuildPlan.PlanIsDetermined | src/rebuild_plan.rs:313-366 | So the files determine the stream, and one that was refused for too many inputs has too many in every complete account of the same symbols |
| RebuildPlan.MissingIsExhausted | src/rebuild_plan.rs:342-347 | In a plan over captured files a symbol counts as missing its body source exactly when it is eligible and its header no longer fitted the bytes left in its file |
| Runtime.GateRegistry.MutationGate | src/runtime.rs:34-48 | Prunes dead entries, then upgrades the live gate or registers a new one; the caller always gets the owner's live entry |
| Runtime.OneBodyPerOwner | src/runtime.rs:68-75 | Two calls never hold the gate of one owner at once |
| Runtime.NextInv | src/runtime.rs:13-93 | Every step of every call, grant, cancellation and panic keeps the invariant |
| Runtime.MutationsSerialize | src/runtime.rs:34-93 | Over every interleaving: each live gate is its owner's only one, at most one call per owner is past it, the published value is the finished bodies applied one after another, each exactly once, and each is reported to its caller as panicked exactly when its body panics on the value published before it |
| Runtime.MutationsReportTruly | src/runtime.rs:78-91 | A published mutation is reported panicked if and only if its body panics on the replay of what was published before, whoever cancels what and when |
| Runtime.ReadsAreTrue | src/runtime.rs:52-58 | A read works on a value that was published at some time, the replay of a prefix of its owner's mutations, and one not cancelled is reported panicked if and only if its query panics |
| Runtime.PublicationsExcludeReaders | src/runtime.rs:76-86 | While a worker replaces an owner's value nobody else clones or replaces it |
| Runtime.TasksAreCalls | src/runtime.rs:52-93 | The tasks of a run are the calls made along it, in order, each for its owner and with its body |
| Runtime.PublicationIsTheBodys | src/runtime.rs:79-86 | A publication has the content the body left, under the boundary the owner had, or the body's own where there was none |
| Runtime.BoundaryIsNeverLost | src/runtime.rs:79-86 | No run publishes a facade whose workspace boundary differs from the owner's first |
| Runtime.RefusalIsExact | src/runtime.rs:76-86 | A step refuses a finished body exactly when it left a set boundary beyond what the policy readmits; no other step refuses |
| Runtime.RefusedIsUnpublished | src/runtime.rs:78-86 | A body publishes nothing on a base exactly under that condition |
| Runtime.RefusedRun | src/runtime.rs:68-93 | Such a body runs to its end from a fresh owner and leaves value, log and every permit as they were |
| Runtime.RefusalHappens | src/runtime.rs:79-85 | A concrete policy, facade and body whose run ends refused, with the replaced facade unpublished |
| Runtime.PoolIsConserved | src/runtime.rs:9-32 | The tasks on the pool and the free permits always make up four |
| Runtime.CancelAccounting | src/runtime.rs:60-93 | Cancelling a caller never touches a worker's permits; cancelling before the spawn frees everything it owned |
| Runtime.SomeoneAdvances | src/runtime.rs:52-93 | No deadlock: while a call is unfinished some call can go on, and so can every call waiting for the same permit or guard, so the head of its queue can in whatever order it is served |
| Runtime.ContinuationsAreBounded | src/runtime.rs:52-93 | Without new calls every continuation is bounded in length, cancellations included |
| Runtime.EveryRunDrains | src/runtime.rs:13-93 | From every reachable state, under any order of serving queues that may depend on the whole history, all calls finish and every permit is back |
| IndexedPaths.PortableRoundTrip | src/config/paths.rs:7-33 | Reading back the portable form of a canonical path gives that path, also through a symbolic workspace root; `.` need only name the root itself |
| IndexedPaths.PortableIs | src/config/paths.rs:18-33 | A path inside the canonical workspace root is written relative to it, the root itself as `.`; any other path as it is |
| IndexedPaths.CanonicalIs | src/config/paths.rs:7-16 | Relative paths are resolved from the root; a path without canonical form stands for itself |
| IndexedPaths.Settings.SyncIndexedPathCache | src/config/paths.rs:39-46 | Puts the lists in step; lists already in step are reproduced |
| IndexedPaths.Settings.RemoveDescendants | src/config/paths.rs:77-87 | The backwards removal keeps exactly the entries not below the new path, in both lists |
| IndexedPaths.Settings.AddIndexedPath | src/config/paths.rs:49-98 | Refuses exactly invalid and covered paths; on success coverage is exactly old union new and an antichain stays one, on any file system; lists in step with a lawful one stay in step |
| IndexedPaths.Settings.RemoveIndexedPath | src/config/paths.rs:101-120 | Drops exactly the first matching entry from both lists, or nothing; an antichain and lists in step stay so |
| IndexedPaths.AddCovers | src/config/paths.rs:77-96 | Replacing the entries below a path by it changes coverage by exactly that path's |
| Inventory.RepositoriesAreLocated | src/cli/automatic.rs:282-337 | The reference tally holds exactly the repositories reachable through entered directories without passing another Git directory |
| Inventory.ReadListing | src/cli/automatic.rs:307-334 | What is queued and counted is what the listing holds, or less over a limit |
| Inventory.Inventory | src/cli/automatic.rs:282-337 | Ends within its budgets; truncated if and only if the inventory does not fit the limits; otherwise exactly the reachable repositories; ordered by path unless there are too many entries; fails only on an unreadable reachable directory, and then always if the limits hold |
| Inventory.IgnoredIs | src/cli/automatic.rs:339-354 | Skipped are exactly names that start with a dot and eight listed ones |
| Inventory.SortedEndsInLast | src/cli/automatic.rs:332-333 | Sorting the directories to enter leaves the one whose name sorts last at the bottom of the stack |
| Inventory.BottomMoves | src/cli/automatic.rs:286-334 | The bottom of the stack always leads to the directory visited last, which decides the limit on repositories |
| Sorting.SortOrders | src/cli/automatic.rs:332-335 | Sorting by any total order leaves an ordered sequence |
| Sorting.PathOrderIsTotal | src/cli/automatic.rs:332-335 | Paths compared component by component are totally ordered |
| Sorting.NameOrderIs | src/cli/automatic.rs:332-335 | Names compare lexicographically through the first character where they differ |
| Sorting.PathOrderIs | src/cli/automatic.rs:332-335 | Paths compare lexicographically through the first component where they differ |
| SupplyGraph.Reaches | examples/resolution_precision/main.rs:147-165 | Ends on cyclic maps and answers true if and only if the target is at least one hop away along some path |
| SupplyGraph.ClosedHoldsWalks | examples/resolution_precision/main.rs:147-165 | A closed set that holds the start holds every walk from it, and none ends at the target |

## Left out

- The tokenizer, SHA-256, JSON and float text: an arbitrary count, an injective digest and any codec that returns finite vectors unchanged.
- Reading, writing and replacing files, temporary files and file-system errors other than those named: a stored file is what opening and reading it gives.
- Integers of `usize` are 64-bit; overflow appears where the code saturates or checks, and nowhere else can a value of an allocated text's size reach it.
- The scratch string that probes reuse, and capacities of vectors: no result depends on them.
- Error message texts and warnings: only the kind of error and the facts it reports.
- The display path of a file (stripping the workspace root, the outside-workspace marker, backslashes): a given text of the header.
- Semaphore queues in `Runtime`: any waiting call may be granted next. The safety results hold of every such run, so of first-in-first-out ones; `Runtime.SomeoneAdvances` and `Runtime.EveryRunDrains` hold under any rule for serving queues.
- Runtime shutdown and closed semaphores, a poisoned gate mutex, and reuse of a freed owner's address: owners live as long as the run.
- Inside `restrict_workspace` only refusal or adoption of the boundary is modelled; the facade is a boundary and an opaque content.
- Identity strings of policies and backends, default limits and budget construction: single expressions.
- The walk that discovers source files and fingerprints them in `inspect`: a plan starts from a snapshot of files and what their parser finds.
- Inventory.Inventory: does not model names that are not text; names compare character by character.
- IndexedPaths.Settings.AddIndexedPath: keeping the lists in step asks for a file system whose canonical paths are absolute, stable and insensitive to resolving a prefix first, and which does not change during the call.
- Tree-sitter extraction, index storage, retrieval, command-line handling and workspace registration.
