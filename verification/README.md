# CityParquet tooling: verified model

This project models the self-contained algorithms of the tooling around
CityParquet and proves what they promise. There is one group of modules per
source file.

- `Sql*`: the SQL script splitter, against a token grammar.
- `Pool*`, `EnginePool`: the single-use engine pool. Every promise callback is
  one atomic step of a state machine; the class updates the closure's own
  variables and is proved against the steps.
- `Calendar`, `PacedLink`, `ByteRange`: HTTP dates, the shared bandwidth
  limiter and byte ranges of the simulated network server.
- `QueryWindow`, `UntieWindow`, `IdProbes`: the choice of query windows and of
  identifier probes.
- `Lod*`: one geometry per level of detail, vertex compaction, semantics, and
  what becomes of the locations of addresses.
- `CityJsonMerge`, `CityJsonMerger`, `Requantise`: the exact merge of CityJSON
  documents and the integer requantisation of the 3DBAG conversion.
- `Corpus*`: publication of the hosted corpus, stoppable after any write.
- `CpuList`, `Pinning`: kernel CPU lists and pinning to a NUMA node.
- `SeqOrder`: the canonical order of a CityJSONSeq stream.
- `CompactJson`: JSON without its optional white space.
- `Markdown*`, `Chapter*`: sections of Markdown and the chapters folded from
  them.
- `Options`, `Numbers`, `Text`, `Decimal`, `Sorting`, `Sequences`: what the
  others share.

Code that updates variables, arrays or objects is a method or a class here,
proved against a specification function; the theorems are lemmas about that
function. Conventions and assumptions:

- Strings are sequences of characters. White space is JavaScript's set
  everywhere; Rust's also holds U+0085 and lacks U+FEFF, which matters only
  around the numbers of a CPU list or of a byte range.
- Floats, Python decimals and instants are reals. Widths of integers are kept
  where they decide a result: the 32-bit numbers of CPU lists and the 64-bit
  numbers of byte ranges are parsed with their bounds. Printing a CPU list
  adds one to a number without a bound; an ascending list cannot overflow.
- The engine pool assumes that `create` returns a new engine each time and
  throws only through its promise, and that `onError` does not throw. How
  long a timer takes is not modelled: it may fire at any step while it is set.
- The limiter's throughput bound takes a piece to be written at the later of
  its due instant and the instant it was asked for.
- Publication assumes one writer, faithful copies, complete listings and no
  force flag; the hash is only assumed to depend on the content.
- A JSON value that is printed and read back is the same value, and an object
  that was read has no two members of one name.

Places where the code does less than one might read into it. Each has its
exact condition, and an input that shows it:

- `UntieWindow.MovedEdgeTies`, `PointCanTie`: without a quantum, a window edge
  beyond object edges of which the nearest is at zero ties with it.
- `UntieWindow.StayedEdgeKeepsSides`, `EdgeCanFlip`: such an edge can select
  boxes that it did not; no edge of a window that selects anything does.
- `ByteRange.PrintedRangeSelectsItsBytes`, `LongSuffixIsRefused`: ranges with
  numbers beyond 64 bits.
- `Calendar.FixedLength`: dates after the year 9999, from second 253402300800.
- `LodLocations.LocationsAfterNormalising`, `LocationCanBeLost`: the locations of
  addresses name vertices too, and are neither kept nor re-indexed when a
  geometry was dropped.
- `CityJsonMerge.LocationsStay`, `LocationCanMove`: nor are they re-indexed by the
  merge.
- `CityJsonMerge.TemplateMaterialsStay`, `TemplateMaterialCanChange`: template
  materials are not re-indexed either.
- `Requantise.ShiftsAgree`, `ShiftsCanDiffer`: the two merges round some ties
  apart.
- `CorpusModel.ForcedPutBreaks`, `ForcedPutCanBreak`: the force flag.
- `CompactJson.CompactReadsTheSame`, `LiteralsCanMerge`: literals side by side,
  which JSON does not have.
- `Chapters.ChapterSplitsBack`, `ChapterText.IndentedHeadingIsPromoted` and
  `ReturnIsLost`: an indented heading at the start of a section, or a second
  carriage return before a line break.

## Model

| member | source | states |
|---|---|---|
| `SqlGrammar.SplitFollowsTheGrammar` | ai/mcp/src/sql.ts:13-105 | for every script and every derivation of it by the token grammar, the statements are, in order, the texts between the semicolons that the grammar leaves outside strings, quoted names and comments, each without the spaces around it, and without those of spaces alone: nothing else is cut, lost or added |
| `SqlGrammar.DerivationExists` | ai/mcp/src/sql.ts:13-105 | every script has a derivation, unterminated strings and comments included, so the splitter is defined by the grammar on all inputs |
| `SqlGrammar.DerivationUnique` | ai/mcp/src/sql.ts:13-105 | and only one: the grammar is unambiguous |
| `SqlGrammar.TokenIsTaken` | ai/mcp/src/sql.ts:24-98 | a token that the grammar allows next, whatever follows it, is what one round of the loop skips, to the character |
| `SqlGrammar.TakenIsToken` | ai/mcp/src/sql.ts:24-98 | what one round of the loop skips is a token of the grammar: a string with its closing quote, a dollar string up to the first return of its own tag, a comment with every nested one closed, or any of these unterminated only at the end of the script |
| `SqlGrammar.MarkerIs` | ai/mcp/src/sql.ts:58-66 | the tag pattern matches exactly the prefixes that are a dollar tag, and at most one prefix is one |
| `SqlSplitter.SplitStatements` | ai/mcp/src/sql.ts:13-105 | the index-jumping loop returns the statements of the recursive specification for every script, whatever its indices run past |
| `SqlSplitter.SkipToken` | ai/mcp/src/sql.ts:24-99 | one round of the loop moves its index over exactly the token that starts there, or beyond the end of an unterminated one |
| `SqlSplitter.SkipEString` | ai/mcp/src/sql.ts:24-37 | stops behind the closing quote, over escapes and doubled quotes, or past the end when there is none |
| `SqlSplitter.SkipQuoted` | ai/mcp/src/sql.ts:39-52 | stops behind the closing quote, over doubled ones, or at the end |
| `SqlSplitter.SkipComment` | ai/mcp/src/sql.ts:76-89 | stops behind the marker that closes the outermost comment, or at the end |
| `SqlRoundTrip.StatementsSplitToThemselves` | ai/mcp/src/sql.ts:13-105 | every statement the splitter returns splits to just itself |
| `SqlRoundTrip.RejoinedScriptSplitsTheSame` | ai/mcp/src/sql.ts:13-105 | joining the statements with newline, semicolon, newline and splitting again returns the same list, for every script, one with an unterminated tail included |
| `SqlRoundTrip.SplitIsWellSplit` | ai/mcp/src/sql.ts:13-105 | every returned statement is non-empty and stands alone, and every one but the last is ended by a semicolon on the next line |
| `SqlRoundTrip.TokenInside` | ai/mcp/src/sql.ts:24-98 | a token that ends within a statement is the same token whatever comes after the statement |
| `SqlRoundTrip.TokenCutOff` | ai/mcp/src/sql.ts:24-98 | cutting a script off after a statement shortens a token that ran beyond it to the end, and changes no other |
| `SqlRoundTrip.CutMoves` | ai/mcp/src/sql.ts:13-105 | a semicolon that ended a statement still does so when it is moved to the next line, even behind a line comment |
| `SqlRoundTrip.SpacedStatement` | ai/mcp/src/sql.ts:91-104 | a statement that can stand alone is returned as it is from between any spaces |
| `SqlRoundTrip.StatementBeforeSemicolon` | ai/mcp/src/sql.ts:91-104 | a semicolon at the top level ends the statement before it, with whatever spaces around, and the other statements are those of what follows |
| `SqlRoundTrip.NoStatement` | ai/mcp/src/sql.ts:91-104 | a script has no statement exactly when it holds only spaces and semicolons |
| `SqlRoundTrip.OneCharacter` | ai/mcp/src/sql.ts:91-104 | a script of one character is that statement, unless the character is a semicolon or one of the 25 white space characters of ECMAScript |
| `SqlRoundTrip.TagCharacters` | ai/mcp/src/sql.ts:58-61 | the characters that can begin a dollar tag, stand in one, or keep one from starting, by code point |
| `PoolTheorems.EnginesStayWithinSize` | ai/mcp/src/pool.ts:72-101 | in every run, engines being built, ready, lent or still closing, late and draining ones included, never number more than the pool size |
| `PoolTheorems.EnginesAreLentOnce` | ai/mcp/src/pool.ts:103-112 | in every run, no engine is handed out twice, and none that has been closed |
| `PoolTheorems.RequestsAreSettledOnce` | ai/mcp/src/pool.ts:103-142 | a settled request stays settled as it is, and the step that settles it is the build that served the head of the queue, its own timeout, its own abort, or close |
| `PoolTheorems.TimeoutsAlwaysSettle` | ai/mcp/src/pool.ts:133-136 | no timer outlives its request: one that fires settles the request it was set for and takes it out of the queue |
| `PoolTheorems.WaitingRequestsAreTimed` | ai/mcp/src/pool.ts:103-142 | in every run exactly the waiting requests have a timeout pending |
| `PoolTheorems.RequestsListen` | ai/mcp/src/pool.ts:103-142 | a request is queued exactly when the pool is open, it is not aborted, nothing is ready and the queue has room; its abort can then fire exactly when it came with a signal |
| `PoolTheorems.WaitingRequestsCanAbort` | ai/mcp/src/pool.ts:113-139 | however a run goes on, as long as a queued request waits, its abort can fire exactly when it came with a signal |
| `PoolTheorems.AbortsSettle` | ai/mcp/src/pool.ts:115-127 | an abort that fires settles its waiting request as aborted and takes it out of the queue, its timeout and listener with it, hands out nothing and leaves the others in order; after close it finds its request settled and changes nothing |
| `PoolTheorems.UsedEngineIsReplaced` | ai/mcp/src/pool.ts:144-163 | when a task ends its engine is closed first, only then is the slot free, and an open pool is refilled to its size at once |
| `PoolTheorems.RequestsAreServedInOrder` | ai/mcp/src/pool.ts:103-142 | in every run at most `maxWaiting` requests wait, nobody waits while an engine is ready, every queued request waits or is settled, and nobody who waits came before one who was served |
| `PoolTheorems.NobodyIsStranded` | ai/mcp/src/pool.ts:72-101 | while open, fewer engines than the size implies a pending retry timer; so a waiting request always has a build, an engine in use or a timer ahead of it |
| `PoolTheorems.ClosedPoolStaysClosed` | ai/mcp/src/pool.ts:165-176 | from close on, in every run, nothing is ready, nobody waits, no engine is handed out, no build starts and no retry timer is set |
| `PoolTheorems.CloseRejectsAll` | ai/mcp/src/pool.ts:165-173 | close can be called at any time; the first call settles every waiting request as closed, clears its timeout and starts closing every ready engine, touching neither builds nor engines in use; a second one changes nothing |
| `PoolTheorems.ResolvedCloseLeavesOnlyLeased` | ai/mcp/src/pool.ts:165-176 | once close has resolved, nothing is being built, and the engines not closed are exactly those lent or being closed by the use that took them |
| `PoolTheorems.CloseResolvesUnderEverySchedule` | ai/mcp/src/pool.ts:165-176 | from every state in which close was called, under every schedule: only a bounded number of steps beside requests can follow, and until close has resolved there is always one to take that ends no task |
| `PoolTheorems.EveryStepFinishes` | ai/mcp/src/pool.ts:165-176 | after close every callback, whichever comes, brings the end nearer, and requests and further calls change nothing |
| `PoolTheorems.CloseCanResolve` | ai/mcp/src/pool.ts:165-176 | one such run, in which no task ends, reaches the resolution of close |
| `PoolSafety.StepIsSafe` | ai/mcp/src/pool.ts:72-176 | every callback keeps the whole invariant: counts, who holds which engine, queue, timers and listeners, tracked work, closing phase, retry supply |
| `PoolSafety.RunIsSafe` | ai/mcp/src/pool.ts:72-176 | so every run keeps it |
| `PoolSafety.InitIsSafe` | ai/mcp/src/pool.ts:47-72 | a new pool satisfies the invariant |
| `PoolSafety.RefillEffect` | ai/mcp/src/pool.ts:72-101 | refilling leaves the accounted engines at exactly the size, or above it where they were, touches nothing but builds, and starts none while closing |
| `EnginePools.EnginePool.constructor` | ai/mcp/src/pool.ts:47-72 | a new pool has started its first builds |
| `EnginePools.EnginePool.StartBuilds` | ai/mcp/src/pool.ts:72-101 | the loop of refill reaches the state of its specification |
| `EnginePools.EnginePool.BuildResolved` | ai/mcp/src/pool.ts:77-91 | a finished build goes to the head of the queue, to the ready list, or, when closing, to disposal |
| `EnginePools.EnginePool.BuildRejected` | ai/mcp/src/pool.ts:92-97 | a failed build frees its place at once and sets a retry timer only while open |
| `EnginePools.EnginePool.Retry` | ai/mcp/src/pool.ts:96-96 | the retry timer refills |
| `EnginePools.EnginePool.AcquireEngine` | ai/mcp/src/pool.ts:103-142 | a request is refused when closed or already aborted, served with the oldest ready engine, refused as busy at the limit, or queued last, with its timeout and, where it has a signal, its abort listener set; refusals change nothing |
| `EnginePools.EnginePool.GiveUp` | ai/mcp/src/pool.ts:115-127 | a request that gives up leaves the queue, its timer and its listener, and nothing else moves |
| `EnginePools.EnginePool.Timeout` | ai/mcp/src/pool.ts:133-136 | the timeout settles its request as busy |
| `EnginePools.EnginePool.Abort` | ai/mcp/src/pool.ts:123-127 | the abort settles its request as aborted |
| `EnginePools.EnginePool.Release` | ai/mcp/src/pool.ts:144-147 | a used engine starts to close and its slot stays taken |
| `EnginePools.EnginePool.FreeSlot` | ai/mcp/src/pool.ts:148-151 | only after the engine has closed is the slot free and the pool refilled |
| `EnginePools.EnginePool.Forget` | ai/mcp/src/pool.ts:59-62 | finished work is no longer tracked |
| `EnginePools.EnginePool.BeginClose` | ai/mcp/src/pool.ts:165-176 | closing rejects every waiting request, clears its timer and starts disposing of every ready engine; a second call changes nothing |
| `EnginePools.RefillKeepsQueue` | ai/mcp/src/pool.ts:72-101 | refilling moves neither ready engines nor waiting requests |
| `Calendar.DecodeOfHttpDate` | benchmark/readbench/src/netsim.rs:334-361 | for every second count, a reader that knows only the calendar, and has month names and a week of its own, gets the same second count back from the printed date |
| `Calendar.CivilIsTheDate` | benchmark/readbench/src/netsim.rs:335-346 | for every day number, the era arithmetic yields a valid Gregorian date whose days since 1970-01-01, summed over 365- and 366-day years and month lengths, are that number |
| `Calendar.WeekdayIsDayName` | benchmark/readbench/src/netsim.rs:347-353 | the weekday printed for a day is the one that follows, day by day and by name, from the Thursday of 1 January 1970 |
| `Calendar.FixedLength` | benchmark/readbench/src/netsim.rs:334-361 | the text has the fixed 29 characters of section 5.6.7 of RFC 9110 exactly up to the end of the year 9999; after that it is longer |
| `PacedLink.ClockIsTheMaximum` | benchmark/readbench/src/netsim.rs:86-101 | the end of reservation j is the maximum over all earlier reservations i of the instant i was asked for, less the burst, plus the link time of i to j, in whatever order the instants arrive |
| `PacedLink.ReservationsDoNotOverlap` | benchmark/readbench/src/netsim.rs:86-101 | a reservation starts on the link only after every earlier one, and all between them, have ended |
| `PacedLink.ThroughputIsBounded` | benchmark/readbench/src/netsim.rs:86-101 | the bytes written in any interval, times the seconds a byte takes, are at most the interval plus the larger of two milliseconds and the time of one chunk |
| `PacedLink.Link.constructor` | benchmark/readbench/src/netsim.rs:80-84 | a new link has an idle clock |
| `PacedLink.Link.Reserve` | benchmark/readbench/src/netsim.rs:86-101 | a reservation takes its bytes times the seconds a byte takes, from the instant the link is free or, if later, two milliseconds before it was asked for; the others stay |
| `PacedLink.SendBody` | benchmark/readbench/src/netsim.rs:449-463 | sends the whole body in pieces of at most 16384 bytes, as few as possible, each reserved and written at its instant, and ends its bytes times the seconds a byte takes after the link could start on it, whatever was reserved before, but never before it was asked for |
| `PacedLink.SendPiece` | benchmark/readbench/src/netsim.rs:454-456 | one round of that loop: the piece is reserved, and written when its reservation has ended |
| `ByteRange.PrintedRangeSelectsItsBytes` | benchmark/readbench/src/netsim.rs:295-331 | every printed range of section 14.1.2 of RFC 9110 is answered with exactly the bytes it names, or refused as unsatisfiable when it names none, exactly unless a number that the answer depends on does not fit 64 bits |
| `ByteRange.LongSuffixIsRefused` | benchmark/readbench/src/netsim.rs:295-331 | an input that is answered wrongly: a suffix of 2^64 bytes names all of any file and is refused |
| `ByteRange.PartLiesInTheFile` | benchmark/readbench/src/netsim.rs:295-331 | whatever the header says, a part that is answered is not empty and lies in the file |
| `ByteRange.ParseOfDigits` | benchmark/readbench/src/netsim.rs:295-331 | a header of two numerals, or of one and an empty side, is read as those |
| `ByteRange.SpacedRange` | benchmark/readbench/src/netsim.rs:295-331 | of every other header with one dash or more, the texts before the first dash and behind it decide, without the spaces around them |
| `ByteRange.OtherHeaders` | benchmark/readbench/src/netsim.rs:295-307 | without a header, with another unit or without a dash everything is sent; a list of ranges is unsupported |
| `ByteRange.SidesAreNumerals` | benchmark/readbench/src/netsim.rs:308-330 | a side that is not empty has to be a numeral below 2^64 or the header is ignored, but a suffix that is none is refused |
| `ByteRange.PlusSign` | benchmark/readbench/src/netsim.rs:309-325 | a plus sign before a number makes no difference |
| `Decimal.ParseBelowIs` | benchmark/readbench/src/netsim.rs:310-325 | exactly the digits of a number below the limit are parsed, perhaps after a plus sign, as that number |
| `QueryWindow.WindowForTarget` | benchmark/readbench/src/params.rs:295-350 | for well-formed rows and a target in (0, 1]: the bracket ends within 2^-steps, its upper end reaching the wanted count and its lower end zero or short of it; the window lies around the median centre with one of the two ends as its half-extent, is never empty, reports how many rows overlap it on all three axes and what fraction they are, and no non-empty window outside the bracket is closer to the target |
| `QueryWindow.CountIsMonotone` | benchmark/readbench/src/params.rs:246-281 | the number of selected rows never falls as the half-extent grows |
| `QueryWindow.CentreIsInside` | benchmark/readbench/src/params.rs:256-264 | the median of the centres lies within the extent |
| `QueryWindow.FullWindowSelectsAll` | benchmark/readbench/src/params.rs:270-281 | a half-extent of one around such a centre selects every row |
| `QueryWindow.ExtentHoldsAll` | benchmark/readbench/src/params.rs:166-182 | the extent folded from well-formed rows contains each of them |
| `QueryWindow.EndsAreClosest` | benchmark/readbench/src/params.rs:322-338 | the closer non-empty end of the bracket is at least as close to the target as any non-empty window outside it |
| `QueryWindow.CountIsSelected` | benchmark/readbench/src/params.rs:246-253 | the count is the number of rows that on each axis end no earlier than the window starts and start no later than it ends |
| `QueryWindow.MedianIsMiddle` | benchmark/readbench/src/params.rs:256-264 | the median is the middle one of the values in ascending order, or half-way between the two middle ones |
| `QueryWindow.ExtentIsTight` | benchmark/readbench/src/params.rs:166-182 | and each side of it is that of some row |
| `UntieWindow.Untie` | benchmark/readbench/src/params.rs:367-394 | each of the four edges moves to the nearest wide gap among the edges it competes with; the height is widened beyond every box; the reported counts are the numbers of rows, and of root rows, that overlap the moved window on all three axes |
| `UntieWindow.EdgeInGap` | benchmark/readbench/src/params.rs:407-445 | an edge with anything to compete with moves to the nearest wide gap, the lower of two; with nothing it stays |
| `UntieWindow.FindGap` | benchmark/readbench/src/params.rs:433-444 | a wide gap is always found, so the fallback is unreachable |
| `UntieWindow.WideIs` | benchmark/readbench/src/params.rs:419-432 | an inner gap is wide when it is longer than two quanta and than a trillionth of both its ends, and its point is half-way; the outer ones always are, their points beyond the outermost edge by twice those lengths |
| `UntieWindow.CountIsSelectedRoots` | benchmark/readbench/src/params.rs:380-387 | the root count is the number of selected rows that are roots |
| `UntieWindow.MovedEdgeIsApart` | benchmark/readbench/src/params.rs:407-445 | with a positive quantum, a moved edge is more than one quantum from every competing object edge |
| `UntieWindow.StayedWindowSelectsTheSame` | benchmark/readbench/src/params.rs:367-394 | when all four edges of a window that selects anything can stay in their own gap, the moved window selects exactly the boxes the window selected before, with a quantum or without |
| `UntieWindow.UnflippedWindowSelectsTheSame` | benchmark/readbench/src/params.rs:367-394 | so does that of a window that selects nothing, as long as no edge flips an object edge at zero |
| `UntieWindow.NonEmptyWindowNeverFlips` | benchmark/readbench/src/params.rs:367-394 | no edge of a window that selects anything does |
| `UntieWindow.StayedEdgeKeepsSides` | benchmark/readbench/src/params.rs:407-445 | an edge that can stay in its own gap does; every competing edge is then on the side of it where it was, exactly unless there is no quantum, no competing edge is on its included side, and the nearest of them is at zero |
| `UntieWindow.EdgeCanFlip` | benchmark/readbench/src/params.rs:424-432 | an input on which one changes sides: a lower edge at 5 beyond one object edge at zero, without a quantum |
| `UntieWindow.MovedEdgePasses` | benchmark/readbench/src/params.rs:407-445 | an edge that cannot stay in its own gap changes sides with exactly the competing edges between that gap and the nearest wide one, to which it goes |
| `UntieWindow.MovedEdgeTies` | benchmark/readbench/src/params.rs:407-445 | without a quantum a moved edge ties with a competing one exactly when all of those lie on one side of the edge and the nearest of them is at zero |
| `UntieWindow.PointCanTie` | benchmark/readbench/src/params.rs:424-432 | an input on which it does tie: one object edge at zero and no quantum |
| `IdProbes.Probes` | benchmark/readbench/src/params.rs:585-633 | when any identifier is verifiable every decile has a probe, the verifiable identifier nearest its nominal index; positions never decrease over the deciles, the substituted flag is exact, and the last probe is a free miss |
| `IdProbes.NearestVerifiable` | benchmark/readbench/src/params.rs:591-604 | finds the verifiable identifier nearest to an index, the lower of two, although both indices are clamped, and none only if there is none |
| `IdProbes.NearestIsMonotone` | benchmark/readbench/src/params.rs:591-604 | the nearest verifiable identifier of a later index never stands earlier |
| `IdProbes.MissId` | benchmark/readbench/src/params.rs:562-574 | returns the first candidate that is free |
| `IdProbes.FewTaken` | benchmark/readbench/src/params.rs:562-574 | by pigeonhole no more candidates in a row are taken than there are taken identifiers, so the search ends |
| `IdProbes.CandidatesDiffer` | benchmark/readbench/src/params.rs:562-574 | no two candidates are the same string |
| `IdProbes.MissIsUnique` | benchmark/readbench/src/params.rs:562-574 | seed and taken identifiers determine the miss, and it is not taken |
| `IdProbes.StatsResistantMiss` | benchmark/readbench/src/params.rs:768-801 | of all sampled candidates among the stored identifiers in order, the miss covers the most row groups over all columns, ties going to the one nearest the middle and of two as near to the later; it is free, and missing only when there are no identifiers |
| `IdProbes.SortedOnceSorts` | benchmark/readbench/src/params.rs:773-775 | the identifiers that are sampled are the stored ones, strictly in byte order, each once |
| `IdProbes.FlatIsSummed` | benchmark/readbench/src/params.rs:782-791 | counting in all ranges at once is counting column by column |
| `IdProbes.SampleIsSmall` | benchmark/readbench/src/params.rs:768-801 | however many identifiers there are, at most one more than the fixed number of candidates is scored |
| `IdProbes.SampleIs` | benchmark/readbench/src/params.rs:779-793 | scored are every n-th identifier from the first on, n being the least that leaves no more than 1024, and the middle one |
| `IdProbes.CoveredAreKept` | benchmark/readbench/src/params.rs:782-791 | the row groups counted are those without statistics and those whose range holds the miss |
| `IdProbes.AtMostIsLexical` | benchmark/readbench/src/params.rs:774-775 | identifiers compare by the first character in which they differ, a prefix first |
| `IdProbes.CandidatesAre` | benchmark/readbench/src/params.rs:562-574 | the candidates are the seed with `-readbench-absent`, and then that with `-2`, `-3` and so on |
| `IdProbes.DecilesAre` | benchmark/readbench/src/params.rs:538-544 | the deciles are a tenth, a half and nine tenths, with their tags |
| `IdProbes.NominalIs` | benchmark/readbench/src/params.rs:606-607 | a decile names the index that is its share of the list rounded down |
| `LodTheorems.NormaliseKeepsMeaning` | benchmark/readbench/src/lod.rs:94-149 | after normalising, each object has its name and members, and of its geometries the first of each key and all unkeyed ones, in order; every boundary of a remaining geometry names at the same place of its nesting the same vertex as before |
| `LodLocations.LocationsAfterNormalising` | benchmark/readbench/src/lod.rs:145-149 | the location of an address is left as it is written: it still names its vertices when nothing was dropped, and when every vertex up to each of its indices is named by a kept geometry; where no two vertices are alike, exactly then |
| `LodLocations.IndexAfterCompacting` | benchmark/readbench/src/lod.rs:304-314 | after compacting, an index that is not rewritten names its vertex exactly when the vertex that takes its place is the same |
| `LodLocations.IndexStays` | benchmark/readbench/src/lod.rs:304-314 | so it does when all vertices up to it are named by geometries, and where no two are alike only then |
| `LodLocations.LocationCanBeLost` | benchmark/readbench/src/lod.rs:304-314 | an input on which an address is lost: two geometries of one LoD, and an address at the vertex of the one that is dropped |
| `LodTheorems.NormaliseTwiceIsOnce` | benchmark/readbench/src/lod.rs:94-186 | a second run succeeds and changes nothing |
| `LodTheorems.CompactKeepsMeaning` | benchmark/readbench/src/lod.rs:268-343 | compacting moves no geometry to other vertices, at any depth of nesting; locations of addresses are another matter |
| `LodTheorems.NormaliseKeepsOnlyNamed` | benchmark/readbench/src/lod.rs:94-149 | when normalising dropped a geometry, the vertices left are exactly those that the kept geometries name, in their old order, each still named; otherwise all are left |
| `LodTheorems.CompactKeepsOnlyNamed` | benchmark/readbench/src/lod.rs:268-300 | after compacting every vertex is named by some geometry, and the kept ones keep their order |
| `LodTheorems.KeptAreFirst` | benchmark/readbench/src/lod.rs:94-128 | the kept geometries are exactly those that are the first of their key in source order, or have no key |
| `LodTheorems.KeptAreOnePerKey` | benchmark/readbench/src/lod.rs:94-128 | an object keeps at most one geometry of a key |
| `LodTheorems.RewriteKeepsKey` | benchmark/readbench/src/lod.rs:204-225 | the key survives the re-indexing |
| `LodTheorems.RewriteKeepsShape` | benchmark/readbench/src/lod.rs:334-343 | a rewritten boundary has the same nesting and names the same vertices in the compacted list |
| `LodTheorems.UsedAt` | benchmark/readbench/src/lod.rs:278-298 | a used vertex is found where the new numbering says |
| `LodTheorems.PlainKeepsKeys` | benchmark/readbench/src/lod.rs:166-186 | removing semantics below LoD 2 changes no key, and doing it twice is doing it once |
| `LodTheorems.KeyIs` | benchmark/readbench/src/lod.rs:202-225 | a geometry has a key when it is no instance, has a level of detail and names a vertex at any depth; the suffix of the level is the key |
| `LodTheorems.InRangeIs` | benchmark/readbench/src/lod.rs:316-332 | boundaries are accepted exactly when each number in them, at any depth, is an index of the list |
| `LodTheorems.PlainIs` | benchmark/readbench/src/lod.rs:166-200 | only a geometry at level of detail 0 or 1 that is no instance loses anything: its semantics |
| `LodTheorems.GeometryCountAdds` | benchmark/readbench/src/lod.rs:105-122 | geometries are counted object by object, none where there is no list of them |
| `LodNormalise.LostInIs` | benchmark/readbench/src/lod.rs:166-186 | of an object, the geometries counted as losing semantics are those at level 0 or 1 that are no instance and have some |
| `LodNormalise.LostCountAdds` | benchmark/readbench/src/lod.rs:166-186 | and they are counted object by object |
| `LodNormalise.Mark` | benchmark/readbench/src/lod.rs:316-332 | marks exactly the named vertices, and fails exactly on an index outside the list |
| `LodNormalise.Renumber` | benchmark/readbench/src/lod.rs:278-285 | the filled table gives each used vertex the number of used ones before it |
| `LodNormalise.RetainUsed` | benchmark/readbench/src/lod.rs:289-298 | keeps exactly the used vertices |
| `LodNormalise.RetainFirst` | benchmark/readbench/src/lod.rs:110-121 | the retained geometries are the first of each key and those without one |
| `LodNormalise.WithoutSemantics` | benchmark/readbench/src/lod.rs:166-186 | loses semantics only below LoD 2, and counts the geometries that lost theirs |
| `LodNormalise.Document.constructor` | benchmark/readbench/src/lod.rs:94-94 | a document is its objects and vertices |
| `LodNormalise.Document.CompactVertices` | benchmark/readbench/src/lod.rs:268-300 | in place: succeeds exactly when every index is in range, and then reaches the compacted document; a failure changes nothing |
| `LodNormalise.Document.KeepFirstPerLod` | benchmark/readbench/src/lod.rs:94-128 | in place: reaches the specified document, counts what it dropped, and compacts exactly when something was dropped |
| `LodNormalise.Document.RemoveSemanticsBelowLod2` | benchmark/readbench/src/lod.rs:166-186 | in place: returns how many geometries lost their semantics, which is zero exactly when nothing changed |
| `LodNormalise.Document.Normalise` | benchmark/readbench/src/lod.rs:145-149 | in place: reaches the document that the theorems are about, with exact counts, or reports the error |
| `CityJsonMerge.MergeKeepsMeaning` | benchmark/scripts/cityjson_merge.py:92-178 | every object of every document is in the merged document under its identifier, and each boundary, texture, texture vertex, material and template reference of its geometries names there, at the same place of its nesting, what it named in its own document |
| `CityJsonMerge.LocationsStay` | benchmark/scripts/cityjson_merge.py:160-176 | the location of an address is not moved: it still names what it named exactly when for each of its indices the same vertex stands in its place in the merged table; where vertices differ, exactly when no earlier document has any, or it names none |
| `CityJsonMerge.LocationCanMove` | benchmark/scripts/cityjson_merge.py:160-176 | an input on which an address moves: two documents of one address and one vertex each |
| `CityJsonMerge.DocumentIsHeld` | benchmark/scripts/cityjson_merge.py:123-176 | every table of every document lies in the merged table at the offset its references were moved by |
| `CityJsonMerge.NothingElseIsMerged` | benchmark/scripts/cityjson_merge.py:125-176 | the merged tables begin empty, and each document adds as many elements to each as it has, and no more |
| `CityJsonMerge.InTableIs` | benchmark/scripts/cityjson_merge.py:57-62 | what the theorems ask of a reference is that each index in it is one of the table |
| `CityJsonMerge.RingInTables` | benchmark/scripts/cityjson_merge.py:65-77 | and of a ring that it has no texture, or its first value is a texture and the others are texture vertices |
| `CityJsonMerge.OffsetResolves` | benchmark/scripts/cityjson_merge.py:57-62 | a nested reference moved by the position of its table resolves in the merged table to what it resolved to before, at any depth |
| `CityJsonMerge.TextureResolves` | benchmark/scripts/cityjson_merge.py:65-77 | in a ring the first value moves with the textures and the others with the texture vertices; nulls stay |
| `CityJsonMerge.MaterialResolves` | benchmark/scripts/cityjson_merge.py:80-85 | material values, nested or single, name the same materials |
| `CityJsonMerge.TemplateMaterialsStay` | benchmark/scripts/cityjson_merge.py:153-159 | template materials are not moved: one still names its own document's material exactly when the same stands in its place in the merged table; where materials differ, exactly when no earlier document has any |
| `CityJsonMerge.TemplateMaterialCanChange` | benchmark/scripts/cityjson_merge.py:153-159 | an input on which one changes: two documents of one template and one material each |
| `CityJsonMerger.Merge` | benchmark/scripts/cityjson_merge.py:92-178 | each refusal is given exactly for its reason in the documents given, in the order of the checks; when none applies the result is the specified merge, from the smallest translate and on the wanted scale, exactly when identifiers are distinct and residuals allowed |
| `CityJsonMerger.MergeAll` | benchmark/scripts/cityjson_merge.py:123-176 | the loop over documents of one scale succeeds exactly when all residuals are allowed and no identifier repeats |
| `CityJsonMerger.AddObjects` | benchmark/scripts/cityjson_merge.py:160-176 | refuses exactly a repeated identifier |
| `CityJsonMerger.Origin` | benchmark/scripts/cityjson_merge.py:123-123 | the origin is on each axis the smallest translate, and one of them |
| `CityJsonMerger.MergeMovesNothingFar` | benchmark/scripts/cityjson_merge.py:92-178 | in a merge that succeeds, rescaled or not, every vertex of the documents given is on each axis within the allowed residual times the scale of where it was |
| `CityJsonMerger.MergedVerticesStay` | benchmark/scripts/cityjson_merge.py:123-176 | so is every vertex of documents already on one scale |
| `CityJsonMerger.ShiftMovesByTheResidual` | benchmark/scripts/cityjson_merge.py:134-148 | a shifted vertex moves by exactly the rounding residual times the scale, at most half a unit |
| `CityJsonMerger.RescaledVerticesStay` | benchmark/scripts/cityjson_merge.py:108-122 | a finer scale by whole factors moves no coordinate |
| `CityJsonMerger.FactorIs` | benchmark/scripts/cityjson_merge.py:108-116 | a rescaling is accepted exactly when the old scale is a whole multiple, one or more, of the new one |
| `CityJsonMerger.WorstIs` | benchmark/scripts/cityjson_merge.py:134-141 | the residual of a document is the largest of its three axes |
| `CityJsonMerger.RequantiseHeights` | benchmark/scripts/cityjson_merge.py:212-228 | changes heights only, each to the nearest multiple; the reported worst change bounds all, is one of them, and is at most half a new unit |
| `Requantise.RequantisedIsNearest` | benchmark/scripts/cityjson_merge.py:212-228 | a re-quantised height is within half a new unit of the old one, a tie going up |
| `Requantise.PlannedShiftRounds` | scripts/3dbag2cityparquet/3dbag2cityparquet.py:217-231 | adding the planned integer is rounding vertex plus offset half away from zero, for every real offset and every vertex |
| `Requantise.RoundHalfAwayIsNearest` | scripts/3dbag2cityparquet/3dbag2cityparquet.py:254-258 | that rounding is the nearest integer, of two the one farther from zero |
| `Requantise.ShiftsAgree` | scripts/3dbag2cityparquet/3dbag2cityparquet.py:254-258 | for offsets from zero up it equals the other merge's rounding of the shift alone, except exactly when the offset is a tie and vertex plus floor is negative |
| `Requantise.ShiftsCanDiffer` | scripts/3dbag2cityparquet/3dbag2cityparquet.py:254-258 | an input on which they differ: the vertex -1, moved by half a unit |
| `Requantise.MovedByHalfAUnit` | scripts/3dbag2cityparquet/3dbag2cityparquet.py:217-258 | a moved vertex is within half a unit of its coordinate |
| `Requantise.PlanAxis` | scripts/3dbag2cityparquet/3dbag2cityparquet.py:215-231 | the planned origin is the smallest translate, and for each tile and every vertex the plan rounds the move to it |
| `CorpusModel.StoppedRunIsConsistent` | benchmark/scripts/corpus_bucket.py:289-394 | wherever a run of the three steps' writes is stopped, no object is gone or changed and every listed key is in the bucket with the recorded bytes and hash |
| `CorpusModel.SafeWriteKeeps` | benchmark/scripts/corpus_bucket.py:289-394 | each single write keeps both |
| `CorpusModel.ForcedPutBreaks` | benchmark/scripts/corpus_bucket.py:309-316 | forcing another content over a key keeps the promise exactly when no manifest records that key with another size or hash |
| `CorpusModel.ForcedPutCanBreak` | benchmark/scripts/corpus_bucket.py:309-316 | an input on which it is broken: a longer content over the one object recorded |
| `CorpusBucket.Corpus.constructor` | benchmark/scripts/corpus_bucket.py:289-289 | a bucket is its objects and manifests |
| `CorpusBucket.Corpus.IsSame` | benchmark/scripts/corpus_bucket.py:305-306 | trusting the recorded hash of a recorded key is right: it answers whether the stored object has the wanted size and hash |
| `CorpusBucket.Corpus.PlanKeys` | benchmark/scripts/corpus_bucket.py:299-310 | the plan sends exactly the absent keys, skips exactly the matching ones and reports exactly the differing ones |
| `CorpusBucket.Corpus.Recorded` | benchmark/scripts/corpus_bucket.py:295-298 | what a stored manifest records of a dataset, all artefacts together, is stored; of any other dataset nothing |
| `CorpusBucket.Corpus.SendAll` | benchmark/scripts/corpus_bucket.py:314-317 | the upload loop is a run of safe writes that stores each planned file |
| `CorpusBucket.Corpus.UploadDataset` | benchmark/scripts/corpus_bucket.py:289-322 | without force it fails, before any write, exactly when some key is there with another content; otherwise all its writes are safe, it sends just the absent keys, and the entry is stored |
| `CorpusBucket.Corpus.PublishManifest` | benchmark/scripts/corpus_bucket.py:334-341 | one write, of a manifest that keeps every other dataset and lists nothing that is not stored; refused exactly when the chain number differs |
| `CorpusBucket.Corpus.CopyAll` | benchmark/scripts/corpus_bucket.py:384-387 | the copy loop is a run of safe writes that stores each planned key with its old content |
| `CorpusBucket.Corpus.PlanDataset` | benchmark/scripts/corpus_bucket.py:358-380 | plans one dataset exactly when its artefacts are recorded, and reports a differing key |
| `CorpusBucket.Corpus.PlanAll` | benchmark/scripts/corpus_bucket.py:356-382 | succeeds exactly when every dataset can be carried and nothing differs |
| `CorpusBucket.Corpus.CarryForward` | benchmark/scripts/corpus_bucket.py:344-394 | fails before any write when something cannot be carried or differs; otherwise copies come first and the one manifest write last, every write safe; what it reports copied and skipped are the carried keys that were absent and present; the carried entries are stored and listed, and carrying the same again writes nothing |
| `CorpusBucket.Corpus.PublishCarried` | benchmark/scripts/corpus_bucket.py:392-393 | writes the manifest exactly when something was copied or an entry differs, keeping every other entry |
| `CorpusBucket.NowIsCarried` | benchmark/scripts/corpus_bucket.py:344-394 | once the entries are recorded and the manifests list only what is stored, there is nothing left to carry |
| `CorpusBucket.EntryIs` | benchmark/scripts/corpus_bucket.py:356-380 | the entry left by a carry has the artefacts asked for with their old records and those it had; a new one keeps source and build and names the chain it comes from, one that was there keeps what it said |
| `CorpusBucket.CanCarryIs` | benchmark/scripts/corpus_bucket.py:356-366 | a dataset can be carried exactly when the manifest has it with every artefact that is named |
| `CorpusBucket.CarriesIs` | benchmark/scripts/corpus_bucket.py:356-380 | carried are the keys of the artefacts named, or of all when none is |
| `CorpusBucket.Corpus.UploadRun` | benchmark/scripts/bench_suite.py:428-448 | a run over many datasets writes objects first and the manifest last, every write safe; it succeeds exactly when no dataset has a key with another content in the bucket or in a dataset before it, and a manifest that must be written is the chain's own; then every entry is in the manifest as it is, or as an old one with the same source, artefacts and records, and no other dataset and no other chain changes; when all are recorded so already it sends nothing at all |
| `CorpusBucket.FitsNext` | benchmark/scripts/bench_suite.py:428-448 | in such a run, the next dataset meets no other content exactly when it fits the bucket as it was and the datasets before it |
| `CorpusBucket.UnchangedIsStored` | benchmark/scripts/corpus_bucket.py:325-331 | an entry that the manifest records unchanged is stored, and no key of it differs |
| `CorpusBucket.Flatten` | benchmark/scripts/corpus_bucket.py:295-298 | the keys of all artefacts come together in one record |
| `CpuList.ParseOfFormat` | benchmark/readbench/src/isolation.rs:84-122 | parsing the printed form of any list returns its numbers, sorted and without repetition; of a strictly ascending list, the list itself |
| `CpuList.ParsedIsAscending` | benchmark/readbench/src/isolation.rs:84-101 | whatever parses comes out strictly ascending |
| `CpuList.ParseCpuList` | benchmark/readbench/src/isolation.rs:84-101 | the loop reads every part or fails on the first bad one |
| `CpuList.FormatCpuList` | benchmark/readbench/src/isolation.rs:104-122 | the two nested loops print each maximal run once |
| `CpuList.RunIsSpan` | benchmark/readbench/src/isolation.rs:104-122 | a printed run is a gapless range of the list, and the next number does not continue it |
| `CpuList.OnePartPerRun` | benchmark/readbench/src/isolation.rs:104-122 | there are as many parts as there are numbers that do not follow the one before them |
| `CpuList.PartIs` | benchmark/readbench/src/isolation.rs:104-122 | each part is a number alone, or the first and the last of more with a dash between |
| `CpuList.ParsedHolds` | benchmark/readbench/src/isolation.rs:84-101 | any text parses exactly when each of its parts between commas is empty or parses, and its numbers are exactly those of its parts |
| `CpuList.SinglePart` | benchmark/readbench/src/isolation.rs:84-101 | a part without a dash is a numeral below 2^32, spaces around it aside, or an error |
| `CpuList.RangePart` | benchmark/readbench/src/isolation.rs:84-101 | any other stands for all numbers from its first to its last, and is an error when one of them is no numeral below 2^32 or they descend |
| `Pinning.BuildPinning` | benchmark/readbench/src/isolation.rs:266-380 | pins exactly on Linux with a tool and a chosen node with a usable core; then the argument reads back as that node's usable cores without the coordinator's, or as the one core they share; each refusal names its reason and records nothing |
| `Pinning.ChildCoresStayAllowed` | benchmark/readbench/src/isolation.rs:266-380 | the children's cores, read back from the argument, are exactly the node's own allowed cores, without the coordinator's unless the record says it is shared |
| `Pinning.AutoTakesTheBest` | benchmark/readbench/src/isolation.rs:189-198 | `auto` succeeds exactly when some node has a usable core, and takes one that has, with the most free memory among those and the lowest id among equals |
| `Pinning.NamedNodeIsChosen` | benchmark/readbench/src/isolation.rs:323-331 | a node asked for by its id is the first that has it |
| `Pinning.BestIsBest` | benchmark/readbench/src/isolation.rs:189-198 | the node picked has no better one beside it; a node without a reading ranks last |
| `Pinning.UsableAreAllowed` | benchmark/readbench/src/isolation.rs:293-308 | usable cores are the node's cores within the allowed set, in order |
| `Pinning.FindNode` | benchmark/readbench/src/isolation.rs:323-331 | the first node with the wanted id, if there is one |
| `Pinning.PinTo` | benchmark/readbench/src/isolation.rs:332-379 | once the node is known: pins to its usable cores, or refuses for want of cores or of a tool |
| `SeqOrder.PermutedStreamsAgree` | benchmark/readbench/src/seq_order.rs:23-82 | whatever order the feature lines come in, and the objects within each, reordering succeeds for all or none, and the results read the same, line by line |
| `SeqOrder.PermutedStreamsAreIdentical` | benchmark/readbench/src/seq_order.rs:23-82 | where every feature line is as the library prints it, the results are the same byte for byte |
| `SeqOrder.OrderSucceeds` | benchmark/readbench/src/seq_order.rs:56-82 | it fails exactly when the stream is empty, a line is no feature, a root or an object is missing from the document, or two features share a root |
| `SeqOrder.OrderFails` | benchmark/readbench/src/seq_order.rs:23-82 | every error describes a fault of the stream: it is empty, or the first faulty line has this fault, or no line has one and two of them share the root at this place |
| `SeqOrder.MembersAre` | benchmark/readbench/src/seq_order.rs:23-31 | the identifier of a line is its member `id`, a string, and its objects are its member `CityObjects`, an object |
| `SeqOrder.MissingIsFirst` | benchmark/readbench/src/seq_order.rs:32-38 | the object that is reported missing is the first that the document lacks |
| `SeqOrder.PositionIsLast` | benchmark/readbench/src/seq_order.rs:32-38 | the place of an identifier is the last one, should the document hold it twice |
| `SeqOrder.OrderedStream` | benchmark/readbench/src/seq_order.rs:56-82 | the header stays first, the other lines are those of the stream as they are kept, none lost or added, and their roots stand in strict document order |
| `SeqOrder.KeptIsArranged` | benchmark/readbench/src/seq_order.rs:23-50 | a line in order is kept byte for byte; any other is written anew with the same members, its objects the same ones in document order |
| `SeqOrder.OrderedLineStays` | benchmark/readbench/src/seq_order.rs:23-50 | a line whose objects stand in document order stays as it is, and any other comes to stand in it |
| `SeqOrder.SecondPassKeepsAll` | benchmark/readbench/src/seq_order.rs:56-82 | a second pass changes nothing, not one byte |
| `SeqOrder.FeatureIdAndLine` | benchmark/readbench/src/seq_order.rs:23-50 | the loops look up, sort and move the objects as specified, and report the first fault |
| `SeqOrder.PlaceObjects` | benchmark/readbench/src/seq_order.rs:32-38 | finds the place of every object, or the first that is missing |
| `SeqOrder.Rebuild` | benchmark/readbench/src/seq_order.rs:42-48 | moving the objects in the order of their places gives the sorted object map |
| `SeqOrder.OrderSeqLines` | benchmark/readbench/src/seq_order.rs:56-82 | the loops reach the specified stream or error |
| `SeqOrder.FindShared` | benchmark/readbench/src/seq_order.rs:75-77 | finds the first two neighbours that share a root |
| `CompactJson.CompactPrintsTheValue` | benchmark/scripts/compact_json.py:23-28 | for every JSON value and every choice of white space around its tokens (section 2 of RFC 8259), compacting gives the print without white space, and both texts read as the same tokens |
| `CompactJson.TokensAppend` | benchmark/scripts/compact_json.py:23-28 | how a JSON value is written: an item adds its tokens behind a comma, a member its name, a colon and its value |
| `CompactJson.CompactKeepsTheTokens` | benchmark/scripts/compact_json.py:23-28 | whatever tokens are written with whatever white space, compacting leaves their spellings, nothing between them |
| `CompactJson.CompactReadsTheSame` | benchmark/scripts/compact_json.py:23-28 | the compacted text reads as the same tokens exactly when no two literals stand side by side |
| `CompactJson.LiteralsCanMerge` | benchmark/scripts/compact_json.py:23-28 | an input on which they do not: two numbers with a space between become one |
| `CompactJson.TokensAreSound` | benchmark/scripts/compact_json.py:23-28 | a JSON value never has two literals side by side |
| `CompactJson.CompactTwiceIsOnce` | benchmark/scripts/compact_json.py:23-28 | compacting twice is compacting once, for every text, valid or not |
| `CompactJson.CompactLosesOnlyGaps` | benchmark/scripts/compact_json.py:23-28 | of any text at all nothing but white space is lost |
| `CompactJson.StringIs` | benchmark/scripts/compact_json.py:20-20 | the pattern takes a text for a string exactly when it is a quote, escapes and characters that are neither quote nor backslash, and a quote |
| `CompactJson.OneCharacter` | benchmark/scripts/compact_json.py:20-28 | what is dropped outside strings is the blank, the tab, the line feed and the carriage return |
| `Chapters.ChapterSplitsBack` | ai/mcp/src/build-corpus.ts:94-126 | splitting any chapter of any document returns its sections, with their levels and trimmed bodies in order, exactly when no trimmed text in it splits into headings of its own and no section has a carriage return before a line break |
| `ChapterText.PlainChapterSplitsBack` | ai/mcp/src/build-corpus.ts:94-126 | in a document whose only line ends are line feeds, splitting a chapter returns its sections exactly when no text in it begins with a heading, once trimmed |
| `ChapterText.OnlyTheFirstLineIsPromoted` | ai/mcp/src/build-corpus.ts:105-114 | where line feeds are the only line ends, a trimmed text splits into headings exactly when its first line is one: nothing in a fence or further down ever counts |
| `ChapterText.ReadingShowsTheSection` | ai/mcp/src/corpus.ts:139-147 | reading a section of a chapter that splits back shows the text of the first of the chapter's own sections of that name, letter case aside, and finds none only if there is none |
| `ChapterText.ReadingShowsTheFirst` | ai/mcp/src/corpus.ts:139-147 | reading shows the heading and the trimmed text of the first section of that name, letter case aside, and nothing when there is none |
| `ChapterText.ReturnIsLost` | ai/mcp/src/build-corpus.ts:94-126 | another: a section whose text has two carriage returns before a line feed |
| `ChapterText.IndentedHeadingIsPromoted` | ai/mcp/src/build-corpus.ts:94-126 | a document whose chapter does not split back: a heading, and below it an indented line like one |
| `Chapters.GroupsPartition` | ai/mcp/src/build-corpus.ts:103-116 | nothing is lost, repeated or moved: the chapters are the sections from the first of level 2 on, cut before each one of level 2 |
| `Chapters.ChapterGrows` | ai/mcp/src/build-corpus.ts:105-126 | a chapter begins with its own trimmed text, and each further section adds its hashes, its heading and its trimmed text, if any, set off by blank lines |
| `Chapters.ChapterIs` | ai/mcp/src/build-corpus.ts:94-126 | a chapter has the heading of its own section for a title and the number it is given, and lists the headings of its level 3 sections in order |
| `Chapters.SectionsAreSourced` | ai/mcp/src/mdx.ts:219-238 | every section but the last of a document closes each fence it opens, and has a heading the pattern accepts |
| `Chapters.HeadingLineReads` | ai/mcp/src/build-corpus.ts:114-114 | the line printed for a section's heading reads as that heading |
| `Chapters.CutOfPart` | ai/mcp/src/build-corpus.ts:113-114 | a printed section splits into its heading, its text, and whatever its text splits into |
| `Chapters.NormalIsSame` | ai/mcp/src/mdx.ts:219-238 | joining the lines of a text again returns it exactly when no carriage return stands before a line break |
| `MarkdownText.FenceOfTrim` | ai/mcp/src/mdx.ts:45-73 | the fence that is open after a body is open after the body trimmed |
| `MarkdownText.LinesOfTwo` | ai/mcp/src/mdx.ts:220-220 | the lines of two texts joined by a line feed are theirs, but for a carriage return that becomes part of the break |
| `MarkdownText.LinesWithoutBreak` | ai/mcp/src/mdx.ts:220-220 | a text without a line feed is one line |
| `Markdown.CutBoth` | ai/mcp/src/mdx.ts:219-238 | splitting lines in two stretches, the fence carried over, gives the pieces of the whole |
| `Markdown.CutLine` | ai/mcp/src/mdx.ts:225-235 | a heading outside a fence begins a section, and any other line goes to the section before it, if there is one |
| `Markdown.SplitSectionsByLine` | ai/mcp/src/mdx.ts:219-238 | the loop with its tracker returns the specified sections |
| `Markdown.FenceTracker.constructor` | ai/mcp/src/mdx.ts:45-46 | a tracker starts with the given fence |
| `Markdown.FenceTracker.IsInside` | ai/mcp/src/mdx.ts:48-61 | a fence opens at a marker and closes only at one of its own kind that is at least as long; lines of both kinds count as inside |
| `MarkdownText.FenceOfLine` | ai/mcp/src/mdx.ts:45-62 | three or more backticks or tildes, after any spaces, open a fence where none is open and close one of their kind that is no longer; every other line leaves it as it is; what is inside is said exactly |
| `MarkdownText.MarkerOfLine` | ai/mcp/src/mdx.ts:49-50 | a line marks a fence exactly when it begins, after any spaces, with three or more backticks or tildes |
| `MarkdownText.HeadingOfLine` | ai/mcp/src/mdx.ts:228-231 | hashes, white space and a text are a heading exactly when the hashes are two to six and the rest of the line holds no line break of any kind; the text is what stands between the spaces |
| `MarkdownText.HeadingWithoutText` | ai/mcp/src/mdx.ts:228-231 | without white space after the hashes there is no heading; with nothing but that it is empty |
| `Markdown.FenceTracker.Fork` | ai/mcp/src/mdx.ts:63-65 | a fork starts at the same fence and shares nothing |
| `Chapters.ChaptersFromFunctionsMarkdown` | ai/mcp/src/build-corpus.ts:94-126 | the fold over the flat list builds the chapter of every group, numbered in order, with its identifier and its level 3 sections |
| `Chapters.ChapterIdIsSlug` | ai/mcp/src/build-corpus.ts:118-119 | every identifier consists of lower-case letters and digits, in words with single dashes between them |
| `Chapters.ChapterIdOfWords` | ai/mcp/src/build-corpus.ts:118-119 | the identifier of a title is its words of letters and digits, in lower case, with a dash wherever anything else stands between two of them |
| `Chapters.SlugIsItsOwnId` | ai/mcp/src/build-corpus.ts:118-119 | a title that is a slug in lower case is its own identifier |

## Left out

- Network, process and file plumbing: sockets, HTTP parsing and responses
  beyond the paced body, `rclone`, DuckDB, subprocesses. The bucket and the
  local files are maps.
- Reading Parquet and Arrow: row boxes, identifiers and row-group ranges are
  given; `quantile_of` and `feature_probes` are not part of this model.
- PacedLink.SendBody: others may have reserved before, but nobody reserves
  while the body is sent, and timers fire on time; for bodies that interleave
  the bounds are those of the limiter.
- CityJsonMerger.Merge: what is built is the accumulators; the output
  dictionary, its metadata and extent, and the pass that sets texture types are not
  modelled, and lists that Python rewrites in place are values here, so two
  documents that share a list object are not covered. Template textures, which
  the code does not offset either, are not modelled.
- LodNormalise.Document.CompactVertices: nested arrays are values that are
  replaced, not JSON arrays updated in place; `Lod::parse` is foreign, so the
  parsed level is part of a geometry. JSON numbers that are no 64-bit
  unsigned integers are negative numbers here.
- CorpusBucket.Corpus.UploadDataset: is the call without the force flag, of which
  `CorpusModel.ForcedPutBreaks` says what it can break; the check of remote sizes
  after sending is not modelled, because copies are assumed faithful; `download` and the
  timestamps of the manifest are left out.
- SeqOrder.OrderSeqLines: a line is its text with the value that reading it
  gives; serde's own parsing and printing are not modelled.
- CompactJson.CompactPrintsTheValue: the spelling of numbers is not checked, a
  literal is any run of characters that are neither white space, structural
  nor quotes; bytes are characters, which differ only inside strings.
- Chapters.ChaptersFromFunctionsMarkdown: JavaScript's `toLowerCase` is a
  parameter.
- `stripJsx`, link and admonition rewriting in `mdx.ts`: regular expressions.
- The coordinator's load checks, memory prefix and CSV in `isolation.rs`,
  sampling, naming, serialising and the user interfaces: they would add only
  easy members.
- Last-bit floating-point behaviour and Python's 28-digit decimal context.
