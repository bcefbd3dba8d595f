# A verified model of the plugin SDK

The SDK compiles plugins to WASM. A plugin and its host share one megabyte of guest memory, in which
the host places requests, events and the results of host calls; the SDK also ships the routing of
requests, an in-memory SQL table and cache for plugin tests, and a reference Git provider. This project
models those parts and proves what they are relied on for.

## The parts

- **Arena** (`Machine`, `Arena`). The buffer is a real array with an `int32` offset. `Malloc`, `Slice`
  and `Reset` do the wrapping arithmetic of the source. A ghost list says which allocations are live
  since the last reset and what was written there. A slice carries the generation it was taken in, which
  every reset ends; it can only be read in that generation and while its region is live, so the proof of
  every backend is also a proof that no slice is read after a reset.
- **Host calls and exports** (`Backends`, `Guest`, `Sessions`, `Exports`). The backends, the dispatcher and the exports are
  imperative code over that one array. The host is an arbitrary function of the history of calls. The
  plugin is an arbitrary function of everything it has ever seen, in Init and in all its handlers, and so
  is the set of handlers it has; decoding is an arbitrary function of the bytes at the moment of decoding. The code is proved equal to a specification in which bytes are passed by value and
  nothing aliases (`CallSpec`, `RunSpec`, `ExportSpec`, `EventSpec`, `SessionSpec`), and that one is
  proved equal, for hosts whose replies fit, to one with no arena at all (`IdealRun`, `IdealSession`). What
  each call and export then gives is told on the host's own blocks, byte for byte.
- **Chunked fetch** (`FetchChunks`, `FetchLiveness`). The loop, for any host, is proved to follow a
  transcript predicate that does not mention the loop; run over the real arena it always delivers the
  body when a 4 KiB chunk fits.
- **Routing** (`Paths`, `Routes`). Iteration over the route map is a choice nobody controls. The answers
  of all orders are characterised exactly, and so are the inputs for which the fast path and the implicit
  project scope are what they claim to be.
- **Test kit** (`Text`, `SqlText`, `SqlCase`, `SqlFaults`, `TestDb`, `RowAnswers`, `SqlClients`, `Cache`).
  Statements are printed and parsed back, and read in any case; rows are separate arrays updated in place,
  and what statements do is told by their cells; the cache is compared with a history of operations.
- **Reference provider** (`Utf8Cut`, `Decimal`, `Listing`, `Listings`, `BranchNames`, `ProviderSpec`,
  `ProviderRuns`, `ProviderTheorems`, `ProviderIds`, `ProviderFailures`, `ProviderAnswers`, `ProviderWrites`,
  `ProviderObjects`, `Provider`). The theorems are about all runs of a state machine on values, and about the
  worlds before and after each request. In the provider itself change requests and threads are objects that
  are written through pointers; every object has one place, and a write through one pointer is proved to show
  in that place only, so that serving requests is a run of the state machine.

## Where the code does less than its comments or tests suggest

Each has its exact condition and an input, or a run, in which it happens.

- The bound check of malloc adds in `int32`, so a size above 2^31 - 1 - offset passes it and makes the
  offset negative (`MallocStaysInBoundsIff`; `MallocWraps`).
- An exact route hit returns no parameters. The search could have answered the same exactly when no
  segment of the path starts with a colon (`FastPathIsAdmissibleIff`; `FastPathDropsParameter`).
- Most specific wins, but two equally specific patterns are decided by map order; the order is invisible
  exactly when all most specific matches give the same handler and parameters (`OrderIsInvisibleIff`;
  `OrderDecidesBetweenEquals`).
- A literal beats a parameter wherever two patterns differ so, except the literal "projects" in front of a
  parameter: the two then count as a scope, and the order decides (`LiteralBeatsParameterIff`;
  `ProjectsIsNoLiteral`).
- Spelling out "/projects/:projectId" is not only a matter of style when the tail also matches the whole
  path, or the scoped pattern also matches inside the project (`ScopeIsImplicitIff`;
  `PlainAlsoMatchesWhole`).
- WHERE clauses are split on the letters AND, so a column whose name contains them is refused
  (`StatementIsReadIff`, `UpdateIsReadIff`; `TornColumn`).
- That split is also the one place where case matters. Statements of the same letters mean the same when AND
  stands in capitals at the same places; behind an "and" that does not, the rest of the clause is silently
  dropped, or the clause is refused (`StatementInAnyCase`, `UpdateInAnyCase`; `OtherAndIsLost`).
- A statement that stops after FROM or INTO, or an UPDATE with its SET or WHERE too early, panics
  (`StatementPanicsIff`, `InsertPanicsIff`, `UpdatePanicsIff`).
- `a = $1` compares texts, so a nil cell equals a parameter that shows as "<nil>" and a nil parameter; IS NULL
  tells them apart (`MatchesIff`; `NilShowsAsText`).
- An UPDATE that fails keeps what it has done. The row that halts it can be told beforehand, and it has
  done nothing exactly when every matching row up to that one already has the values of the assignments
  that reach it (`UpdateWorksUpTo`, `FailedUpdateIsAtomicIff`; `FailedUpdateChangesARow`, and
  `RaggedUpdateChangesARow` with assignments that all reach). In a table without ragged rows only the
  first matching row matters, and an UPDATE whose assignments reach is atomic
  (`RegularUpdateIsAtomicIff`, `ReachingUpdateIsAtomic`).
- An INSERT with RETURNING adds its row before it looks up the returned columns. A failed one has added
  its row exactly when the row was acceptable and a returned column is not one of the table
  (`QueryInsert`; `FailedInsertAdds`).
- A listing that ignores a cursor it cannot read panics on one that it can: exactly when the cursor is a
  negative numeral (`NegativeCursorTrapsIff`; `MinusOneTraps`).
- Events do not free the bytes that were placed for them, so events alone can fill the arena. A session is
  never refused when its payloads leave room beside what was placed since the last export or reset
  (`RoomySessionIsNeverRefused`), or when all come right after an export or a reset
  (`FreshSessionIsNeverRefused`; `TwoEventsOverflow`).
- A clock that is moved backwards can show that an expired entry was evicted: exactly when some Get since
  the last write found the entry expired that the history now counts as alive (`EvictionIsVisibleIff`;
  `BackwardsShowsEviction`).
- A failed request to the provider has changed something exactly when it is an update with a bad state and
  another field that is new (`FailureIsAtomicIff`; `RefusedUpdateHasWritten`).
- A merged change request can be reopened through an update, and in no other way (`MergedIsLeftIff`;
  `MergedIsReopened`). A branch gets two open change requests exactly when an update reopens one over
  another (`OneOpenPerHeadIff`, `RunHasOneOpenIff`; `TwoOpenOnOneBranch`).

## Model

| member | source | states |
|---|---|---|
| Machine.WordRoundTrip | wasm_backends.go:142-143 | Any 32-bit output, negative ones too, is read back by the shifts and ors exactly as the host wrote it |
| Machine.WordIsLittleEndian | wasm_backends.go:142-143 | The bytes of an output, least significant first, make up its value, or that value less 2^32 |
| Machine.LongRoundTrip | wasm_backends.go:118 | Any 64-bit count, negative ones too, is read back from the eight bytes the host wrote |
| Machine.LongIsLittleEndian | wasm_backends.go:118 | The same for the eight bytes of a count |
| ArenaModel.MallocStaysInBoundsIff | wasm_backends.go:36-52 | Malloc keeps the offset between 0 and 1 MiB exactly when the size does not make the int32 sum wrap |
| ArenaModel.MallocWraps | wasm_backends.go:44-48 | The input that breaks it: one byte in use and a request of 2^31 - 1 bytes |
| ArenaModel.MallocInNumbers | wasm_backends.go:36-52 | A request is met, at the address plus what is in use, exactly when it is positive and ends at 1048576 at the latest; otherwise the pointer is null and nothing moves |
| ArenaModel.MallocIsPlace | wasm_backends.go:36-52 | For sizes that cannot wrap, malloc is the allocation step of the abstract arena, and a null pointer means exactly "did not fit" |
| ArenaModel.SliceOfMalloc | wasm_backends.go:427-440 | Slicing at what malloc returned names exactly the allocated region |
| ArenaModel.SliceNamesWhatIsSaid | wasm_backends.go:427-440 | Whatever pointer and length it is given, a slice is the bytes they say, inside the buffer, or none |
| ArenaModel.EveryRunIsTiled | wasm_backends.go:36-59 | After any run of allocations and resets the offset is in the buffer and is the sum of the live sizes; live regions are in the buffer, end to end and disjoint |
| ArenaModel.Arena.Malloc | wasm_backends.go:36-52 | The in-place allocator does the int32 step and adds the new region to the live ones |
| ArenaModel.Arena.Reset | wasm_backends.go:57-59 | After a reset nothing is live, and a new generation begins: every slice taken before is stale |
| ArenaModel.Arena.Slice | wasm_backends.go:427-440 | nil, a window aliasing the buffer, or the panic of an end before its start |
| ArenaModel.Arena.Load | wasm_backends.go:147 | Only a slice taken since the last reset can be read, and reading it gives what the host wrote there |
| ArenaModel.Arena.HostPut | wasm_exports.go:24-26 | The host allocates and writes: earlier live regions keep their bytes |
| Backends.PlaceAll | wasm_exports.go:24-26 | Any sequence of host allocations: each block ends up at its own pointer, or got pointer 0 because it did not fit |
| Backends.Answer | wasm_backends.go:85 | The outputs the host leaves name exactly the bytes it managed to place |
| Backends.AnswerExec | wasm_backends.go:112-120 | The outputs of an Exec hold the host's count and name exactly the error it managed to place |
| Backends.Get | wasm_backends.go:135-150 | The value is exactly the host's bytes, copied before the reset, and there is one exactly when they are not empty; a miss resets nothing |
| Backends.QueryRows | wasm_backends.go:67-103 | Errors win over results, rows are decoded before the reset, and an empty result leaves the arena alone |
| Backends.ExecStatement | wasm_backends.go:105-127 | An error message is copied before the reset; otherwise the 64-bit count is read from the output and nothing is reset |
| Backends.CallHost | custom_host_call.go:40-57 | The response is copied before the reset and decoded from the copy |
| Backends.Perform | wasm_backends.go:67-150 | Any call is the specified exchange, and resets the arena once exactly when it delivered data |
| Backends.LookupAnswers | wasm_backends.go:135-150 | When the reply fits in 1048576 bytes beside what is in use, a lookup gives exactly the block the host reports, or nothing when it reports none; so it does with unlimited memory |
| Backends.QueryAnswers | wasm_backends.go:67-103 | A query that is told of an error fails with exactly that error, whatever the result; otherwise its rows are exactly the result |
| Backends.ExecAnswers | wasm_backends.go:105-127 | An exec that is told of an error fails with exactly that error, and otherwise gives the host's count |
| Backends.ExchangeAnswers | custom_host_call.go:40-57 | A host call gives exactly the response the host reports |
| Backends.NotifyAnswers | wasm_backends.go:152-163 | A call without outputs is acknowledged and frees nothing |
| Backends.OneBlockReply | wasm_backends.go:135-150 | A reply of one block fits, or does not, by its length alone |
| Backends.NothingIsLost | wasm_backends.go:346-360 | When a reply that carries data fits beside what is in use, the plugin gets it whole and the arena is empty afterwards |
| Backends.AllDelivered | wasm_backends.go:36-52 | Blocks that fit together are all delivered, each with its own bytes |
| GuestModel.ArenaIsInvisible | wasm_exports.go:46-60 | For every plugin, whatever it remembers, and every host whose replies fit, any number of calls through the shared arena is the same as with unlimited memory |
| GuestModel.ActIgnoresOffset | dispatch.go:98-100 | One run of plugin code does, remembers and returns the same whatever part of the arena is in use |
| GuestModel.InitIgnoresOffset | dispatch.go:19-36 | Init behaves the same whatever part of the arena the request still takes |
| GuestModel.ExportIgnoresOffset | wasm_exports.go:46-91 | So does a whole export: same answer, same host calls, same state |
| GuestModel.ExportsAreNeverRefused | wasm_exports.go:53-58 | In every session of exports and resets the arena is empty after each, so no request up to 1 MiB is ever refused |
| GuestModel.Guest.RunHandler | dispatch.go:98-100 | A run over the real array, from all the plugin remembers, is the run by value, and its event payload stays what it was |
| GuestModel.Guest.Init | dispatch.go:19-36 | A successful Init runs once, a failed one is tried again, and what either saw is remembered |
| GuestModel.Guest.HandleMessage | dispatch.go:42-101 | The handler, looked up among those the plugin has by then, gets the decoding of what the host wrote, although Init and the handler overwrite it; once they received data the payload slice cannot be read |
| GuestModel.Guest.Export | wasm_exports.go:46-91 | The answer is that of the specification by value, the arena is empty, and the result is fresh memory outside it |
| GuestModel.Guest.Pack | wasm_exports.go:105-113 | A result of at most 16777216 bytes is kept in a new buffer as it is; a larger one is replaced by the report of its size |
| GuestModel.Guest.HandleEvent | wasm_exports.go:116-126 | Topic and payload are those the host wrote, for the whole handler |
| GuestModel.DoJob | wasm_exports.go:93-113 | The result of an export, read after the next payload was placed, is still that result |
| GuestModel.Session | wasm_exports.go:93-113 | A host that reads each result as late as that gets, for every session, what message passing would give |
| Exports.RunIsConversation | dispatch.go:98-100 | What plugin code sees is a conversation: each sight is the payload it read, or what the host's reply to the call it just made stands for, and it returns what it decided on after all of them |
| Exports.IdealRunIsConversation | dispatch.go:98-100 | So is a run with unlimited memory |
| Exports.ExportAnswers | wasm_exports.go:46-91 | When the payload decodes, Init succeeds and there is a handler, the answer is what its conversation returned, up to 16777216 bytes, and above that the report of the size |
| Exports.BadPayloadAnswers | wasm_exports.go:46-91 | A payload that does not decode is answered by the report of that, and nothing runs |
| Exports.InitFailureAnswers | wasm_exports.go:46-91 | A failed Init is answered by the report of its error |
| Exports.NoHandlerAnswers | dispatch.go:42-101 | A message without a handler is answered by the report of that |
| Exports.EventRuns | wasm_exports.go:116-126 | An event runs its handler on the decoded topic and payload |
| Exports.EventIsDropped | wasm_exports.go:116-126 | An event for which Init fails, or no handler is registered, is dropped |
| Exports.SessionAnswers | wasm_exports.go:46-126 | In every session an export is answered by what its handler's conversation returned, from what the plugin remembers by then |
| Exports.IdealSessionAnswers | wasm_exports.go:46-126 | The same with unlimited memory |
| Sessions.SessionIsIdeal | wasm_exports.go:46-126 | A tidy host that leaves room for its replies cannot tell a whole session through the one arena from one with unlimited memory |
| Sessions.RoomySessionIsNeverRefused | wasm_backends.go:36-59 | Nor is any of its jobs refused |
| Sessions.FreshSessionIsNeverRefused | wasm_exports.go:46-126 | For any host, a session whose payloads come right after an export or a reset, and fit the arena, is never refused |
| Sessions.TwoEventsOverflow | wasm_exports.go:116-126 | A session that is: the second of two events of more than half a megabyte |
| FetchChunks.ReadBodyChunks | fetch_chunks.go:52-84 | The loop makes exactly the reads and gives the result of the recursive form |
| FetchChunks.ReadSpecMeansTranscript | fetch_chunks.go:52-84 | For any host: at most size + 7 reads, each at the offset of what was sent and at 256 KiB halved at most six times, continued only for a reason; success means all chunks together, of exactly the announced size |
| FetchChunks.LimitsNeverGrow | fetch_chunks.go:58-67 | Limits never grow and stay between 4 KiB and 256 KiB |
| FetchChunks.FetchInNumbers | fetch_chunks.go:52-84 | For any host, reply by reply: 67108864 bytes are accepted and 67108865 refused, the first read asks for 262144 at 0, a chunk moves on, no fit halves the limit down to 4096, and which reply ends the fetch with which result |
| FetchLiveness.ReadFetchChunk | wasm_backends.go:363-380 | One read over the real arena is the specified exchange |
| FetchLiveness.ReadNext | wasm_backends.go:335 | A further read against the arena gets what the arena's reader answers |
| FetchLiveness.DrainArena | wasm_backends.go:335 | The loop of the drain over the real arena makes the reads and gives the answer of the loop over that reader |
| FetchLiveness.FetchDelivers | fetch_chunks.go:49-84 | If 5464 bytes and the envelope fit beside what is in use, the body arrives exactly, however the host reports chunks that do not fit |
| FetchLiveness.FetchBody | wasm_backends.go:333-340 | So the fetch through the real arena returns exactly the parked body |
| FetchLiveness.TaggedWireIsOne | fetch_chunks.go:37-44 | There is an encoding as the two theorems demand |
| FetchLiveness.FetchFromEmptyNeverShrinks | fetch_chunks.go:17-20 | From an empty arena no smaller chunk is ever asked for |
| Paths.SegmentsOfJoin | context.go:211-217 | A clean path is read back as the segments it was joined from |
| Paths.SegmentsOfAny | context.go:211-217 | Any path, clean or not, is its segments with slashes between them and more slashes around; no segment has a slash, and the first and last are not empty |
| Paths.RelativeIsShorter | context.go:164-180 | Whatever empty segments it has, the project-relative path is at least two segments shorter |
| Paths.RelativeOfClean | context.go:164-180 | For a clean path it is exactly the rest after the first two |
| Routes.MatchRoutePattern | context.go:182-209 | The loop computes the match of the two segment lists |
| Routes.MatchSucceedsIff | context.go:182-209 | A match exists exactly when the lengths agree and every segment matches |
| Routes.MatchIsTheSubstitution | context.go:182-209 | With distinct non-empty names, the match is the one assignment of parameters that turns the pattern into the path |
| Routes.RouteSpecificity | context.go:150-162 | The loop computes the specificity, which LiteralsAreCounted and LiteralBeatsParameterIff say is the number of literals after the scope prefix |
| Routes.LiteralsAreCounted | context.go:150-162 | It is the size of the set of places that hold no parameter |
| Routes.ScopeDoesNotCount | context.go:150-162 | Of a scoped pattern, that of what follows the scope |
| Routes.UnscopedCounts | context.go:150-162 | Of any other, that of the whole |
| Routes.LiteralBeatsParameterIff | context.go:142-162 | A literal for a parameter, anywhere, makes a pattern strictly more specific, except exactly where the literal is projects in front of a parameter |
| Routes.NeverBothWays | context.go:131-136 | No pattern matches both the path and its project-relative form |
| Routes.MatchRoute | context.go:100-140 | The exact hit, or the search in some order of the map |
| Routes.EveryOrderIsAdmissible | context.go:129-139 | For every order: nothing exactly when nothing matches, otherwise the handler and parameters of a match of maximal specificity |
| Routes.EveryAdmissibleHasAnOrder | context.go:129-139 | Every such answer is given by some order |
| Routes.OrderIsInvisibleIff | context.go:92-99 | All orders agree exactly when all most specific matches give the same answer |
| Routes.OrderDecidesBetweenEquals | context.go:92-99 | Two routes and a path for which the order decides: /a/:x and /:y/b for /a/b |
| Routes.RegisteredWins | context.go:36-38 | After a route is registered, the search gives its handler and parameters, in every order, whenever its pattern matches and every other match is less specific |
| Routes.ParameterNeverWins | context.go:92-99 | Of two matching routes that differ in a literal for a parameter the one with the parameter is the answer in no order |
| Routes.LayoutIsNoPanel | context_test.go:15-34 | /views/:viewId/panels/layout beside /views/:viewId/panels/:panelId: for /views/v/panels/layout the literal route answers in every order |
| Routes.ProjectsIsNoLiteral | context.go:142-162 | The exception: for /projects/7 the order decides between /projects/:id and /:kind/:id |
| Routes.AnswerIsOfItsMethod | context.go:124-127 | Only a route of the request's method answers |
| Routes.MatchOfMethod | context.go:100-140 | That is, a route of the method in some case |
| Routes.MatchInBothCases | context.go:100-103 | Requests that differ only in the case of the method are answered alike |
| Routes.LiteralPathMatchesItselfIff | context.go:194-205 | A path taken as a pattern matches itself without parameters exactly when no segment starts with a colon |
| Routes.FastPathIsAdmissibleIff | context.go:102-104 | The exact-hit fast path gives an answer the search could give exactly when no segment of the path starts with a colon |
| Routes.FastPathDropsParameter | context.go:102-104 | A path for which it does not: /x/:id, registered and asked for as it is written |
| Routes.ScopeIsImplicit | context.go:142-149 | On clean project paths the scoped and the plain pattern match alike, with equal parameters and equal specificity |
| Routes.ScopeIsImplicitIff | context.go:129-137 | The two registrations answer alike exactly when neither also matches the other way |
| Routes.PlainAlsoMatchesWhole | context.go:129-137 | A tail and a path for which they differ: /:a/:b and /projects/7 |
| Routes.MergePathParams | dispatch.go:92-96 | Parameters set by the host win, the matched ones fill the rest, in any order |
| CacheModel.CacheRefinesHistory | plugintest/backends.go:539-578 | After every run in which the clock does not go back, Get answers what the history of operations says |
| CacheModel.EvictionIsVisibleIff | plugintest/backends.go:539-578 | After any run, with the clock moved either way, Get differs from the history exactly when the history has a hit and some Get since the last write of the key found it expired |
| CacheModel.BackwardsShowsEviction | plugintest/backends.go:573-578 | For every backward move, a run in which it differs |
| CacheModel.TtlInNumbers | plugintest/backends.go:539-578 | A value is there exactly while less than its time to live has passed, for ever when that is not positive; a deleted one is gone, and other keys are not touched |
| CacheModel.InMemoryCache.Get | plugintest/backends.go:539-551 | A hit is the value of the last Set that was not deleted, has not expired and was not evicted; evictions do not matter while the clock does not go back |
| CacheModel.InMemoryCache.Set | plugintest/backends.go:554-562 | Extends the history by the Set |
| CacheModel.InMemoryCache.Delete | plugintest/backends.go:565-569 | Extends the history by the Delete |
| CacheModel.InMemoryCache.Advance | plugintest/backends.go:573-578 | Extends the history by the move of the clock, forwards or backwards |
| SqlText.ParseAssignments | plugintest/backends.go:326-337 | The loop reads the parts in order and stops at the first bad one |
| SqlText.ParseConditions | plugintest/backends.go:341-352 | The loop reads the parts in order and stops at the first bad one |
| SqlText.StatementIsReadIff | plugintest/backends.go:277-294 | Printing and parsing a SELECT or DELETE with any tests is the identity exactly when AND occurs in no column, and otherwise an error |
| SqlText.UpdateIsReadIff | plugintest/backends.go:296-324 | The same for an UPDATE with any assignments and tests |
| SqlText.TornColumn | plugintest/backends.go:339-352 | A first column containing AND makes the clause an error, whatever follows |
| SqlText.InsertIsRead | plugintest/backends.go:428-452 | Printing and parsing an INSERT is the identity: any table, any list of columns, whatever follows them |
| SqlText.ReturningIsRead | plugintest/backends.go:454-472 | The columns after RETURNING are read back, whatever words come before |
| Text.UpperIff | plugintest/backends.go:474-485 | Upper case tells apart exactly what differs in more than case, letter by letter, and has no small letter |
| Text.LowerIff | plugintest/backends.go:474-485 | So does lower case |
| SqlCase.StatementInAnyCase | plugintest/backends.go:280-294 | Any two statements of the same letters, with AND in capitals at the same places, are both errors, both panics, or read as the same table and conditions up to case |
| SqlCase.UpdateInAnyCase | plugintest/backends.go:298-324 | The same for UPDATE |
| SqlCase.InsertInAnyCase | plugintest/backends.go:428-452 | The same for INSERT, wherever AND stands |
| SqlCase.ReturningInAnyCase | plugintest/backends.go:454-472 | And for the columns after RETURNING |
| SqlCase.OtherAndIsLost | plugintest/backends.go:339-352 | Behind an and that is not in capitals a test of a parameter silently loses the rest of the clause, and a test for NULL makes it an error |
| SqlFaults.StatementPanicsIff | plugintest/backends.go:280-294 | A SELECT or DELETE makes the helper panic exactly when nothing but spaces follows its first FROM |
| SqlFaults.UpdatePanicsIff | plugintest/backends.go:298-313 | An UPDATE exactly when its first SET comes right behind it, or its first WHERE before the assignments |
| SqlFaults.InsertPanicsIff | plugintest/backends.go:428-437 | An INSERT exactly when nothing but spaces follows its first INTO |
| TestDb.MatchesConditions | plugintest/backends.go:371-397 | The loop accepts a row exactly as Matches does, of which RowAnswers.MatchesIff says what it means on the cells |
| RowAnswers.OneColumn | plugintest/backends.go:474-485 | A name stands for the first column of that name in any case, and for none else |
| RowAnswers.MatchesIff | plugintest/backends.go:371-397 | A row is accepted exactly when in each named column its cell is nil, is not nil, or shows the parameter's text; it is an error exactly when the first condition it does not meet has no cell or parameter |
| RowAnswers.NilShowsAsText | plugintest/backends.go:392 | A parameter that shows as <nil> matches a nil cell, and a nil parameter a cell that shows as <nil>; IS NULL and IS NOT NULL tell them apart |
| TestDb.AssignRow | plugintest/backends.go:246-252 | Assignments are made in place, in order, up to the first that fails |
| TestDb.AssignOverwrites | plugintest/backends.go:246-252 | A row that was assigned has the last assignment in every assigned column and is otherwise unchanged |
| TestDb.UpdateInPlace | plugintest/backends.go:237-256 | The loop over distinct rows changes exactly what the row-by-row update says |
| TestDb.UpdateIsMap | plugintest/backends.go:226-257 | A successful UPDATE is a map: matching rows overwritten, others untouched, length and order kept, the count is the number that matched beforehand |
| TestDb.UpdateWorksUpTo | plugintest/backends.go:237-256 | For every table, ragged or not: an UPDATE works on the rows up to the first that halts it and on no other, succeeds exactly when none does, and otherwise reports that row's problem |
| TestDb.FailedUpdateStops | plugintest/backends.go:239-252 | A failed UPDATE has updated the rows before the one that halts it as a success would, and has not touched those after |
| TestDb.FailedUpdateIsAtomicIff | plugintest/backends.go:239-252 | For every table: it has changed nothing exactly when every matching row up to the one that halts it already has the values of the assignments that reach it |
| TestDb.FailedUpdateOfRegular | plugintest/backends.go:239-252 | In a table without ragged rows a failed UPDATE either matched no row or made, to the first matching row only, the assignments before the first that does not reach |
| TestDb.ReachingUpdateIsAtomic | plugintest/backends.go:246-252 | There, when all assignments reach, a failed UPDATE has changed nothing |
| TestDb.RegularUpdateIsAtomicIff | plugintest/backends.go:239-252 | There, it has changed nothing exactly when no row matches or the first that does has those values already |
| TestDb.FailedUpdateChangesARow | plugintest/backends.go:246-252 | SET a = $1, nosuch = $2: the statement fails and the row has changed |
| TestDb.RaggedUpdateChangesARow | plugintest/backends.go:35-45 | A ragged table: every assignment reaches, the UPDATE fails at the second row, and the first has changed |
| TestDb.SelectRows | plugintest/backends.go:95-107 | Copies of the matching rows, in order |
| TestDb.SelectAgrees | plugintest/backends.go:200-224 | SELECT and DELETE fail together, select and delete the same number, kept and deleted add up, a failed DELETE keeps all, and the same SELECT afterwards returns nothing |
| TestDb.DeleteSifts | plugintest/backends.go:209-223 | A DELETE keeps exactly the rows that do not match, in order; SELECT returns exactly those that do |
| RowAnswers.StatementsAnswer | plugintest/backends.go:95-108 | A SELECT fails exactly when some row is unanswerable, and otherwise returns exactly the rows that meet every condition, in order; a DELETE fails likewise, and otherwise keeps exactly the others |
| RowAnswers.ThoseAre | plugintest/backends.go:95-108 | A row is among those returned, or kept, exactly when it is in the table and meets, or does not meet, every condition |
| RowAnswers.UpdateSucceedsOnCells | plugintest/backends.go:237-256 | An UPDATE succeeds exactly when every row can be judged and every row that meets the conditions has a cell and a parameter for every assignment |
| RowAnswers.UpdateLeaves | plugintest/backends.go:239-252 | It leaves the rows that do not meet the conditions, and the columns it does not name |
| RowAnswers.UpdateThenAsk | plugintest/backends.go:246-252 | After it, a = $m, IS NULL or IS NOT NULL is met by an updated row exactly when the value last written to that column meets it |
| RowAnswers.UpdateThenSelect | plugintest/backends.go:226-257 | So a SELECT for what was written returns every updated row |
| RowAnswers.AcceptsIff | plugintest/backends.go:172-188 | An INSERT is accepted exactly with one parameter for each column, or one for each column it names, all of them known |
| RowAnswers.InsertedCell | plugintest/backends.go:180-194 | A named column gets the last parameter named for it, but an identifier if that is nil and the column is id |
| RowAnswers.InsertedElsewhere | plugintest/backends.go:171-194 | A column that is not named gets nil, or an identifier if it is id |
| RowAnswers.InsertedWhole | plugintest/backends.go:172-176 | Without a list of columns the parameters are the row, but for a nil identifier |
| RowAnswers.InsertThenSelect | plugintest/backends.go:162-198 | An INSERT of x and a SELECT for x: the rows that show x before, and then the new one, which is missing exactly when the column is id and x is nil |
| RowAnswers.PickedCells | plugintest/backends.go:124-130 | What follows RETURNING is the cells of the named columns, in the order they are named |
| TestDb.DeleteRows | plugintest/backends.go:209-221 | The kept rows are the same memory as before, each once |
| TestDb.KeepingIsUnaliased | plugintest/backends.go:222 | Keeping some rows keeps all rows of all tables unaliased |
| TestDb.InMemoryDB.SeedRows | plugintest/backends.go:35-45 | The caller's rows are copied; other tables stay |
| TestDb.InMemoryDB.AllRows | plugintest/backends.go:49-63 | What is handed out is fresh memory with the table's contents |
| TestDb.InMemoryDB.QuerySelect | plugintest/backends.go:85-108 | The selection of the parsed statement, in fresh rows; the table is unchanged |
| TestDb.InMemoryDB.ExecDelete | plugintest/backends.go:200-224 | The table becomes what the deletion says, other tables stay, a failure changes nothing |
| TestDb.InMemoryDB.ExecUpdate | plugintest/backends.go:226-257 | Cells change in place in the named table only, as the update says |
| TestDb.NewRow | plugintest/backends.go:172-194 | A row is accepted exactly when the parameters match the columns; named columns hold the last parameter given for them, the others nil, and id is generated exactly when it would be nil |
| TestDb.InMemoryDB.InsertRow | plugintest/backends.go:162-198 | The parsed statement adds exactly that row at the end of its table, in fresh memory; any refusal changes nothing |
| TestDb.InMemoryDB.QueryInsert | plugintest/backends.go:110-133 | The row is added exactly when something is to be returned and the table accepts it; the statement succeeds exactly when the returned columns are also known, and then returns the added row's cells |
| TestDb.FailedInsertAdds | plugintest/backends.go:119-130 | For any table, a statement that names a column it does not have after RETURNING: its row is added, and it fails |
| SqlClients.InsertThenAsk | plugintest/backends.go:162-198 | The two statements as text, on the database itself: INSERT INTO t (c) VALUES ($1), then SELECT * FROM t WHERE c = $1 returns the new row last |
| SqlClients.UpdateThenReadBack | plugintest/backends.go:226-257 | UPDATE t SET c = $1 WHERE any tests, then SELECT * FROM t WHERE c = $1 returns every row that met the tests, as it now is |
| SqlClients.StatementsAskTheSame | plugintest/backends.go:85-108 | A SELECT or DELETE written in another case, but for AND, does the same to every table |
| SqlClients.UpdatesAskTheSame | plugintest/backends.go:226-257 | So does an UPDATE |
| SqlClients.SelectTwice | plugintest/backends.go:85-108 | On the database: the same outcome, columns and rows |
| SqlClients.SeedThenReadInAnyCase | plugintest/backends.go:35-63 | A table seeded under one name is read back under the name in any case |
| Utf8Cut.BoundaryIff | gitprovider/fakeprovider/fake.go:133-148 | In valid UTF-8 the byte test finds exactly the places where the text can be cut |
| Utf8Cut.EncodedIsRune | gitprovider/fakeprovider/fake.go:133-148 | The encoding of every Unicode scalar value is one character of the grammar |
| Utf8Cut.RuneIsEncoded | gitprovider/fakeprovider/fake.go:133-148 | And every character of the grammar is the encoding of a scalar value |
| Utf8Cut.CutHead | gitprovider/fakeprovider/fake.go:133-139 | The longest valid prefix of at most n bytes, at most three bytes short |
| Utf8Cut.CutTail | gitprovider/fakeprovider/fake.go:142-148 | The longest valid suffix of at most n bytes, at most three bytes short |
| Utf8Cut.LimitHead | gitprovider/fakeprovider/fake.go:488-492 | A diff is cut exactly when a positive limit is below its length |
| Utf8Cut.LimitTail | gitprovider/fakeprovider/fake.go:561-564 | A log is cut exactly when a positive limit is below its length |
| Decimal.AtoiOfItoa | gitprovider/fakeprovider/fake.go:226-234 | Every cursor that is written is read back |
| Decimal.ItoaOfDigit | gitprovider/fakeprovider/fake.go:150 | The numeral of one digit |
| Decimal.ItoaOfMore | gitprovider/fakeprovider/fake.go:150 | And of a number with one digit more: the two determine every numeral that is written |
| Decimal.AtoiOfSigned | gitprovider/fakeprovider/fake.go:226 | A sign and leading zeros are read |
| Decimal.AtoiIff | gitprovider/fakeprovider/fake.go:226 | And nothing but an optional sign and digits |
| Decimal.IdIsInjective | gitprovider/fakeprovider/fake.go:150 | Identifiers are equal only for the same prefix and number |
| Listing.AscendingIsUnique | gitprovider/fakeprovider/fake.go:219-225 | A set of names has one ascending listing, so map order cannot show |
| Listing.Collect | gitprovider/fakeprovider/fake.go:219-225 | Collecting in any order and sorting gives that listing |
| Listing.FollowVisitsAll | gitprovider/fakeprovider/fake.go:226-245 | Following NextCursor from the empty cursor visits the list once, in order, in full pages and one last one, for every page size |
| Listing.NextCursorIsRead | gitprovider/fakeprovider/variants.go:132-139 | Every cursor handed out is accepted at the position it stands for |
| Listing.NegativeCursorTrapsIff | gitprovider/fakeprovider/fake.go:453-464 | A cursor makes the slicing panic exactly when it is a minus sign and digits that are not all zero |
| Listing.MinusOneTraps | gitprovider/fakeprovider/fake.go:226-240 | The cursor -1 does |
| Listing.ListRepositories | gitprovider/fakeprovider/fake.go:213-247 | A page of the sorted, filtered repositories; a negative cursor is a slice panic |
| Listing.ListChangedFiles | gitprovider/fakeprovider/fake.go:446-466 | A page of two files; a negative cursor is a slice panic |
| Listing.ListIssues | gitprovider/fakeprovider/variants.go:118-158 | A page of two of the issues in the wanted state, ascending by number; bad states and cursors are refused |
| Listings.ContainsIff | gitprovider/fakeprovider/fake.go:221 | A text contains exactly the parts that stand somewhere in it |
| Listings.LessIff | gitprovider/fakeprovider/fake.go:225 | One text comes before another exactly when it is a proper prefix of it or has the smaller character where they part |
| Listings.PageShows | gitprovider/fakeprovider/fake.go:226-245 | The items of a page are those from its position on, and its cursor is empty exactly when none are left |
| Listings.RepositoriesAre | gitprovider/fakeprovider/fake.go:213-247 | The repositories whose path contains the query and no others, each once, in order; the page is those from the cursor on, 50 at most unless a positive number is asked for |
| Listings.FirstFifty | gitprovider/fakeprovider/fake.go:228-230 | Without a page size there are 50 of them on a page, and a cursor exactly when there are more |
| Listings.IssuesAre | gitprovider/fakeprovider/variants.go:118-158 | The issues of the state asked for, open ones when none is, and no others, each once, in order, two on a page; exactly the other states are refused, and only cursors that are not numbers from 0 up |
| Listings.FirstTwoFiles | gitprovider/fakeprovider/fake.go:446-466 | Two changed files on a page, and the cursor 2 |
| ProviderRuns.StepKeeps | gitprovider/fakeprovider/fake.go:571-727 | Every operation keeps the invariant and only adds: numbers, branches, remembered results and used grants stay |
| ProviderRuns.StepKeepsMemo | gitprovider/fakeprovider/fake.go:162-177 | Every remembered result is a success of the operation in its key |
| ProviderTheorems.RunGrows | gitprovider/fakeprovider/fake.go:571-727 | So the same holds between any two points of any run |
| ProviderTheorems.KeysNeverCollide | gitprovider/fakeprovider/fake.go:153-158 | Requests of different operations never share a key |
| ProviderTheorems.EffectHappensOnce | gitprovider/fakeprovider/fake.go:160-177 | After a success, every later request with its key that is not refused outright returns that result and changes nothing |
| ProviderTheorems.FailuresAreNotRemembered | gitprovider/fakeprovider/fake.go:171-176 | A guarded request that fails leaves the world as it was |
| ProviderTheorems.ReplaysHaveTheRightKind | gitprovider/fakeprovider/fake.go:166-170 | A replayed result is of the type the request returns |
| ProviderIds.IdentifiersNeverRepeat | gitprovider/fakeprovider/fake.go:150 | In every run an answer that draws a number carries an identifier that is in no earlier answer, replays included |
| ProviderTheorems.OpenTakesAFreshNumber | gitprovider/fakeprovider/fake.go:593-600 | An opened change request gets a number that is not in use |
| ProviderTheorems.NumberKeepsItsOrigin | gitprovider/fakeprovider/fake.go:605-628 | A number stands for the same branch, commit, base and author ever after |
| ProviderTheorems.NumbersNeverRepeat | gitprovider/fakeprovider/fake.go:593-600 | No two openings in a repository get the same number |
| ProviderTheorems.MergedIsLeftIff | gitprovider/fakeprovider/fake.go:621-626 | A merged change request stops being merged exactly by an update to open or closed |
| ProviderTheorems.OneOpenPerHeadIff | gitprovider/fakeprovider/fake.go:588-592 | One open change request per branch is kept exactly unless an update reopens one beside another |
| ProviderTheorems.RunHasOneOpenIff | gitprovider/fakeprovider/fake.go:588-592 | A run has at most one open change request per branch at every point exactly if no request in it reopens one over another |
| ProviderTheorems.GrantCompletesOnce | gitprovider/fakeprovider/variants.go:405-421 | A grant state completes at most once in a run |
| ProviderTheorems.GrantIsIssuedFirst | gitprovider/fakeprovider/variants.go:387-403 | And only if an earlier request issued it |
| ProviderTheorems.HookLookupIsDetermined | gitprovider/fakeprovider/variants.go:347-351 | In every run at most one hook has a URL, so map order does not matter |
| ProviderTheorems.EnsureIsStable | gitprovider/fakeprovider/variants.go:337-355 | Ensuring a URL again, with its hook not removed, gives the same hook and changes nothing |
| ProviderTheorems.BranchNeverMoves | gitprovider/fakeprovider/variants.go:100-114 | A branch keeps its commit, and it is one of the seeded ones |
| ProviderAnswers.MergeAnswers | gitprovider/fakeprovider/variants.go:279-297 | A merge succeeds exactly when the change request is there and open and the expected commit is given and is its head; then its state is merged, the answer is merge- and that commit, and nothing else has changed; a refused merge changes nothing |
| ProviderAnswers.MergeInRun | gitprovider/fakeprovider/variants.go:279-297 | The same between any two worlds of a run: a merge at a stale commit is refused |
| ProviderAnswers.OnlyMergeMerges | gitprovider/fakeprovider/variants.go:295 | In a run a change request becomes merged only through a merge of it that succeeds |
| ProviderAnswers.UpdateAnswers | gitprovider/fakeprovider/fake.go:605-628 | An update writes exactly the fields it is given, and its state when that is open or closed; any other state is refused after the rest has been written |
| ProviderAnswers.StatusAnswers | gitprovider/fakeprovider/fake.go:710-727 | The state is stored under a new reference, or under the given one if there is a status to replace |
| ProviderAnswers.EnsureAnswers | gitprovider/fakeprovider/variants.go:337-355 | A URL that a hook has gives such a hook and changes nothing; otherwise a new hook has it |
| ProviderAnswers.RemoveAnswers | gitprovider/fakeprovider/variants.go:358-367 | The hook is gone, there or not before, and every other stays |
| ProviderAnswers.MintAnswers | gitprovider/fakeprovider/fake.go:373-390 | A credential is for reading or for writing, with a new secret that names which, or always the one fixed secret |
| ProviderAnswers.BeginAnswers | gitprovider/fakeprovider/variants.go:387-403 | A grant that is begun gets a new state, not used yet |
| ProviderAnswers.CompleteAnswers | gitprovider/fakeprovider/variants.go:406-421 | It is completed exactly when its state is known and not used, and then it is used |
| ProviderWrites.OnceInWords | gitprovider/fakeprovider/fake.go:153-177 | A request is answered from memory exactly when writes are idempotent, its key is not empty and a result is stored under the operation and the key; otherwise it is run, and a success stored there |
| ProviderWrites.OpenAnswers | gitprovider/fakeprovider/fake.go:571-603 | A change request is opened exactly when title, head and base are given, drafts are allowed if it is one and none is open on the branch; it alone is new, with everything it was given |
| ProviderWrites.CommentAnswers | gitprovider/fakeprovider/fake.go:631-652 | A comment that is not blank becomes the last of a change request or issue that is there, with its text and the provider's name |
| ProviderWrites.ReplyAnswers | gitprovider/fakeprovider/fake.go:655-673 | A reply becomes the last comment of the first thread with its id, and nothing else of the change request differs |
| ProviderWrites.ReviewAnswers | gitprovider/fakeprovider/fake.go:677-707 | Which reviews are accepted, with how many comments, and which are refused with which code |
| ProviderWrites.BranchAnswers | gitprovider/fakeprovider/variants.go:90-114 | A new branch stands at the commit of its source, main unless another is given; which are refused with which code |
| BranchNames.ValidNameIff | gitprovider/fakeprovider/variants.go:49-69 | Exactly which names are accepted, character by character |
| ProviderFailures.FailureIsAtomicIff | gitprovider/fakeprovider/fake.go:612-626 | In every run a failed request leaves the world as it was exactly unless it is an update to a bad state with another field that is new |
| ProviderFailures.RefusedUpdateHasWritten | gitprovider/fakeprovider/fake.go:612-624 | A run from the seed in which a refused update has changed the title |
| ProviderFailures.MergedIsReopened | gitprovider/fakeprovider/fake.go:621-626 | A run from the seed in which a merged change request is open again |
| ProviderFailures.TwoOpenOnOneBranch | gitprovider/fakeprovider/fake.go:621-626 | A run from the seed that ends with two open change requests on one branch |
| ProviderObjects.AddAll | gitprovider/fakeprovider/fake.go:85-123 | Seeding gives every repository its own change request and thread objects, which hold the seeded values |
| ProviderObjects.CrAdded | gitprovider/fakeprovider/fake.go:595-599 | A new object under a new number is added, and every other object keeps its place and its value |
| ProviderObjects.SetState | gitprovider/fakeprovider/variants.go:295 | A state written through the pointer of one change request shows in that change request only |
| ProviderObjects.Update | gitprovider/fakeprovider/fake.go:612-627 | So do the fields of an update, those written before a bad state is refused too; what is returned is a copy, which later writes do not reach |
| ProviderObjects.Reply | gitprovider/fakeprovider/fake.go:664-669 | A reply writes one thread object, and shows in one thread of one change request |
| Provider.Core.HasOpen | gitprovider/fakeprovider/fake.go:588-592 | The scan over the objects finds an open change request of the branch exactly when there is one, in any map order |
| Provider.Core.FindThread | gitprovider/fakeprovider/fake.go:664-672 | The loop finds the first thread object with the id |
| Provider.Core.FindHook | gitprovider/fakeprovider/variants.go:347-351 | The scan over the hooks finds the one with the URL, in any map order |
| Provider.Core.RunOnce | gitprovider/fakeprovider/fake.go:162-177 | once over the objects: a remembered result changes nothing, and only a success is remembered |
| Provider.Core.RunGuarded | gitprovider/fakeprovider/fake.go:574-709 | The five guarded operations check first, then go through once, as the state machine does |
| Provider.Core.Handle | gitprovider/fakeprovider/fake.go:574-727 | Every operation on the objects is the state machine's step on what they hold, whose answers ProviderAnswers and ProviderWrites tell one by one, and keeps the invariants |
| Provider.Serve | gitprovider/fakeprovider/fake.go:72-91 | A provider serving any requests from the seed is a run of the state machine, so every theorem about runs is about it |

## Left out

- JSON: encoding and decoding are arbitrary functions, of bytes for messages, invertible with a bound on size for chunks; remembered results are kept as values, not as JSON text.
- Addresses: the buffer's address is a fixed positive constant with room for the buffer below 2^31, results live in separate memory by construction, and the packed pointer-and-length integer is not built.
- GuestModel.Guest.RunHandler: a handler makes some finite number of moves, its budget, before it returns; a handler that never returns is not a run.
- GuestModel.Session: the host does not call an export from inside a host call, except the allocator; Shutdown, and the guard for a plugin that was never registered, are not modelled.
- ArenaModel.Arena.HostPut: blocks are at most 2^31 - 1 - 2^20 bytes, the sizes for which the allocator cannot wrap; MallocStaysInBoundsIff has the others.
- Replies that name memory the host did not place, or a pointer with another length, are only modelled by Arena.Slice.
- An event leaves the arena as its handler leaves it; unlike the other exports it does not end with a reset, so nothing is claimed about its size then.
- FetchLiveness.FetchDelivers: the host that holds the parked body serves exactly the bytes asked for; handle expiry and the first fetch request are not modelled.
- Upper and lower case, and spaces, are those of ASCII; names in other alphabets are not folded.
- SqlText.UpdateIsReadIff: tables named SET or WHERE, and assigned columns that are WHERE or contain a comma, are outside it.
- SqlText.InsertIsRead: tables with an opening parenthesis and columns with a comma or a closing one are outside it.
- TestDb.InMemoryDB.InsertRow: generated identifiers count rows, so they can repeat after a DELETE; nothing is claimed about their uniqueness.
- TestDb: the columns of a table are a value, so a caller that changes the slice it seeded with is not modelled; a panic leaves the rows as they are at that moment.
- Listing: cursors, page sizes and clocks are unbounded integers, so overflow of 64-bit positions, and the largest integer that strconv.Atoi returns beside a range error, are not modelled.
- Listing.ListRepositories: the identity check before it, like the lookups before the other listings, is a single branch and is left to the caller.
- Listing.ListIssues: every issue is stored under its own number, as the seeded one is.
- CacheModel: the clock is a number of ticks; time passing between operations is an Advance.
- Provider: the record of a repository is a value in the provider's map, since no two paths share one; its change requests and their threads are objects.
- ProviderSpec: labels, reviewers, assignees, links, timestamps, private flags, permissions, files at a ref, checks, reactions and resolved threads are not part of the world; the operations on them are single assignments.
- Webhook signatures and parsing, mention matching, the HTTP dispatch of the provider, permission ranks, error-to-status mapping, mutexes, the conformance suite and the native stubs.
