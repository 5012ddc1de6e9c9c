# Verified model of tickstream

tickstream keeps one order book per exchange, publishes immutable snapshots of them, records every event to tape, and
prices market orders against the recorded depth. This project models that core in Dafny and proves what the
repository's documentation and tests promise of it, or, where the code does less, exactly when it does.

What works by changing state in the repository is a class or a loop here, proved against a function on plain values;
what spans steps, runs or interleavings is a lemma about those functions.

| files | model |
|---|---|
| `Common`, `SideSpec`, `BookSide`, `Book` | one side as a map plus a sorted price array edited in place, refining a plain price-to-level map; the two-sided book |
| `EngineSpec`, `Checksum`, `Consolidate`, `Engine`, `EngineRuns`, `Published` | the single writer: snapshot, update, truncate, crossed check, checksum, invalidate, publish; what holds over every run and in every snapshot ever published |
| `Replica`, `BenchFeed` | a truncated local book follows the venue's own book; the benchmark's generated feed as an instance |
| `Resync`, `Feed` | the bounded hand-off, the one-slot restart token and the session steps, in every interleaving |
| `ExecCost`, `Merge`, `CostTheory` | the cost walk in 64-bit fixed point with a 128-bit intermediate; the consolidated ladder; why greedy is optimal, cost is convex, and what rounding can do |
| `SliceSpec`, `StudyRuns`, `TcaStudy` | the study's three arms: decisions, parent orders worked in slices, rows settled once; what becomes of every row over a whole tape |
| `CaptureSpec`, `GapPlacement`, `Capture`, `TapeTheory`, `Replay` | the recorder as interleaved steps of producer and drain; where exactly a loss is marked; rotation; what a tape says and when a replay rebuilds the live books |
| `FixedPoint` | the decimal parser and printer, and the digits the checksum is computed over |

## What the code does against what its comments say

* A gap marker is said to stand immediately where events were dropped (internal/capture/capture.go:52-53,
  docs/TCA.md:150). An offer is dropped when its send finds the channel full, and is counted by a later step of the
  producer; the marker is written before the next event the drain takes off the channel. So of the events offered before
  a loss, exactly those that were waiting when it was counted, on the channel or uncounted in the drain's hand, come after
  its marker (`ExactPlace`): what was waiting when the send failed, bufSize events or bufSize + 1, but for one per swap the
  drain made in between (`SinceSend`). A finished tape's markers stand where the losses happened if and only if nothing
  was waiting whenever a loss was counted (`PromiseIff`). For every buffer size some run marks a loss bufSize + 1 events
  early (`MarkerCanBeEarly`) and some run marks it in place (`MarkerCanBeInPlace`). A snapshot after the last marker heals
  its venue's replayed book, whatever was offered, if and only if its position is at least the number of events that were
  waiting when the last loss was counted (`HealsExactly`; `NearSnapshotMisses` is a failing run for every buffer size).
* An offer is said to be safe to make while the recorder is closed (internal/capture/capture.go:163-165). If the channel
  is shut between the offer's look at the closed flag and its send, the send panics, and not otherwise (`AfterShut`). If
  it is shut between a failed send and its count, the loss can be counted after the drain's last swap and be on no tape
  (`ClosedLate`); the finished tape accounts for every offer, however the run goes on, if and only if no loss was pending
  then (`CloseIff`). Closed between two offers, as the daemon does (cmd/tickstreamd/main.go:172-177), the recorder never
  panics and accounts for every offer (`AfterClose`).
* The parser checks overflow on the integer part only. It is exact precisely when the integer part is below
  92233720368 or the fraction is at most 54775807 units (`ParseExactIff`); otherwise the result is negative
  (`ParseCanWrap` names one such string).
* A gap in the tape drops the study's parents in flight without marking their rows, and such a row reads like a free
  execution. A row whose slices did not fail is unset at the tape's end if and only if a gap follows its decision and
  every event before the first one is earlier than its last slice, which falls due (slices - 1) steps after the decision
  (`DecisionFate`, for the state in which `TcaStudy.Study.Replay` ends). No slice fails while every ladder is empty or
  can fill the order; the times on the tape alone decide then (`DeepDecisionFate`). The rows of a decision with a gap
  right after it are always unset (`GapRightAfter`).
* A parent that completes without an error is filled whole if and only if its last slice found a ladder, or nothing was
  ordered (`LastSliceDecides`); otherwise it settles short (`PartialSettles`).
* Flooring every fill can make a buy look better than the touch (`BuyCanSeemToGain`). It is reported at or above the
  touch if and only if what the deeper levels cost beyond the touch is at least what the flooring takes away
  (`BuyGainsIff`); when the first level fills it, if and only if price times quantity needs no rounding
  (`BuyAtTouchIff`). A sale never gains (`SellNeverGains`).
* A complete run reads back beside other runs if and only if no other run's id extends its own by a hyphen
  (`ReadableBesideIff`). The files of one that does match the pattern too: they have no number under it
  (`LongerRunClashes`) or, when the id ends at that hyphen, its first file has the number of this run's first
  (`HyphenRunClashes`).
* A truncated last file is said to be tolerated (internal/capture/capture.go:11-13). One cut inside its gzip header, such
  as the empty file of a recorder killed just after creating it, is an error instead (`EmptyLastFile`); one cut anywhere
  else is tolerated (`CutReplay`). `LastFileDecides` says of every last file whatsoever whether it is an error or counts
  as truncated, and when what is read is a prefix of the tape.
* A last file whose gzip checksum does not match is taken for a truncated one too. Every record that decodes before the
  checksum is reached is handed on, so the run need not read back as a prefix of the tape: it does if and only if what
  decodes of the file is a prefix of what was written to it (`AlteredReplay`). A file with one altered record in it is
  read with that record as if it had been recorded, and without an error (`AlteredIsRead`).
* A frame that does not decode is skipped and leaves no restart request behind (`Feed.Feed.OnMessage`).

Assumed of the surroundings, as the repository arranges or relies on: book frames decode; the restart watcher of an old
session exits before the next session starts; one goroutine at a time offers to the recorder.

## Model

| member | source | states |
|---|---|---|
| Common.Wrap64 | internal/model/types.go:93-96 | the int64 a Go program holds: in range, congruent modulo 2^64, unchanged when it fits |
| SideSpec.SetLevelsKeyed | internal/book/book.go:156-171 | applying wire levels keeps every level under its own price |
| SideSpec.RankUnique | internal/book/book.go:41-47 | a set of prices has one best-first order |
| SideSpec.AheadIsPrefix | internal/book/book.go:41-56 | the price at index i of that order has exactly i better ones |
| SideSpec.KeepBestByRank | internal/book/book.go:101-111 | keeping the n best prices is keeping a prefix of the ranking |
| SideSpec.KeepBestIsPrefix | internal/book/book.go:101-111 | truncation leaves min(n, size) levels, ranked as before |
| SideSpec.TopOfKept | internal/book/book.go:101-124 | the best k of a truncated side are the best k of the whole side when k <= n |
| SideSpec.AllKept | internal/book/book.go:102-105 | a negative depth, or one not exceeded, truncates nothing |
| BookSide.IndexIsRankReversed | internal/book/book.go:41-47 | an array that indexes the map, worst first, is the best-first ranking reversed |
| BookSide.InsertIndexes | internal/book/book.go:66-76 | inserting a new price at the searched index keeps array and map in step |
| BookSide.RemoveIndexes | internal/book/book.go:79-87 | removing a price at its index keeps array and map in step |
| BookSide.TailIndexesBest | internal/book/book.go:102-111 | the last n prices of the array index exactly the n best levels |
| BookSide.EvictedIsKept | internal/book/book.go:106-109 | deleting the head's prices from the map leaves exactly the n best levels |
| BookSide.BookSide.constructor | internal/book/book.go:132-139 | an empty side with storage of its own |
| BookSide.BookSide.SearchIdx | internal/book/book.go:58-62 | the index splits the array into worse prices and the others |
| BookSide.BookSide.Grow | internal/book/book.go:73 | append keeps the contents, in place or in a fresh array |
| BookSide.BookSide.Move | internal/book/book.go:74-110 | an overlapping copy, element by element, leaves exactly what was there before it at the target |
| BookSide.BookSide.InsertAt | internal/book/book.go:73-75 | the price enters at its index and the rest moves up by one, whether or not the array had room |
| BookSide.BookSide.Set | internal/book/book.go:64-76 | upsert on the plain map, the array following by an in-place shift |
| BookSide.BookSide.Del | internal/book/book.go:78-87 | deletion on the plain map, a no-op when absent |
| BookSide.BookSide.RemoveAt | internal/book/book.go:86 | the prices after the removed one move down by one |
| BookSide.BookSide.ApplyAll | internal/book/book.go:156-171 | a message's levels take effect in order: zero deletes, anything else overwrites |
| BookSide.BookSide.Clear | internal/book/book.go:96-99 | the side is empty and its backing array is kept |
| BookSide.BookSide.Evict | internal/book/book.go:106-109 | exactly the evicted prices leave the map |
| BookSide.BookSide.KeepTail | internal/book/book.go:110 | the overlapping copy leaves exactly the array's tail |
| BookSide.BookSide.Truncate | internal/book/book.go:101-111 | the side becomes its n best levels |
| BookSide.BookSide.Best | internal/book/book.go:89-94 | the best price of the whole map, absent exactly when the side is empty |
| BookSide.BookSide.TopLevels | internal/book/book.go:113-124 | the n best levels, best first, in fresh storage |
| Book.Book.constructor | internal/book/book.go:132-139 | an empty, not-ready book whose sides share no storage |
| Book.Book.ApplySnapshot | internal/book/book.go:141-148 | the book is the snapshot's levels and nothing of what was before, and ready |
| Book.Book.ApplyUpdate | internal/book/book.go:150-171 | both sides upserted, readiness unchanged |
| Book.Book.ApplyLevels | internal/book/book.go:156-171 | each side takes its own levels of the event, in order |
| Book.Book.Truncate | internal/book/book.go:173-178 | both sides become their best depth levels |
| Book.Book.Invalidate | internal/book/book.go:191-196 | the book is empty and not ready |
| Book.Book.IsCrossedOrLocked | internal/book/book.go:214-222 | comparing the two touches decides whether any bid meets any ask |
| Book.Book.Depth | internal/book/book.go:198-204 | the number of prices on the side |
| Book.Book.TopLevels | internal/book/book.go:206-212 | the best n levels of the side asked for, in fresh storage |
| Checksum.BookChecksum | internal/checksum/crc32.go:36-47 | the checksum is over all ask tokens in order, then all bid tokens |
| Engine.Publisher.Store | internal/snapshot/snapshot.go:31-33 | the new snapshot is current and every earlier one still shows what it showed |
| Engine.Publisher.constructor | internal/snapshot/snapshot.go:25-29 | nothing is published yet |
| Engine.Snapshot.constructor | internal/engine/engine.go:222-241 | the snapshot carries the tops and their consolidation |
| Engine.Engine.constructor | internal/engine/engine.go:55-68 | every tracked venue starts with an empty, not-ready book of its own storage |
| Engine.Engine.NewBooks | internal/engine/engine.go:56-59 | one empty book per venue, no two sharing storage |
| Engine.Engine.TriggerResync | internal/engine/engine.go:188-196 | the book is empty and not ready, and the venue's feed, if wired, is asked once |
| Engine.Engine.VerifyChecksum | internal/engine/engine.go:165-186 | a thin book passes; any other is kept exactly when its top-ten checksum matches, else emptied with a request |
| Engine.Engine.CheckBook | internal/engine/engine.go:120-151 | the checks after an event: crossed or mismatching books are emptied with one request, others stay |
| Engine.Engine.TruncateAndCheck | internal/engine/engine.go:121-151 | a Kraken book is cut to its depth before any check |
| Engine.Engine.ApplyToBook | internal/engine/engine.go:118-152 | one event's whole effect on its book, and a request exactly when the book was lost |
| Engine.Engine.TopOf | internal/engine/engine.go:206-218 | a venue's published top mirrors its book, ladders in fresh arrays |
| Engine.Engine.ReadTop | internal/engine/engine.go:206-218 | the same for one tracked venue |
| Engine.Engine.ReadTops | internal/engine/engine.go:205-220 | every tracked venue is mirrored, no two ladders shared |
| Engine.Engine.Build | internal/engine/engine.go:205-241 | a fresh snapshot that shows the engine's books, in storage of its own |
| Engine.Engine.Publish | internal/engine/engine.go:198-248 | a fresh snapshot that shows the books of this moment, and no earlier snapshot changes |
| Engine.Engine.ChangeBook | internal/engine/engine.go:113-152 | the event steps its own venue's book and leaves every other as it was |
| Engine.Engine.UpdateBook | internal/engine/engine.go:113-152 | one venue's book changes, every published snapshot and ladder is untouched |
| Engine.Engine.Apply | internal/engine/engine.go:101-155 | trades and unknown venues change nothing at all; anything else steps its book and publishes |
| Engine.Engine.Consume | internal/engine/engine.go:92-96 | the sink sees the event before it is applied; a snapshot is published exactly when it is a book event of a tracked venue, and every earlier one is left alone |
| Engine.Engine.Run | internal/engine/engine.go:85-99 | over any input the books are the run's, the sink saw every event in order, and the feeds were asked exactly for the books lost; one snapshot was published per book event of a tracked venue, of the books after it, so the current one shows the books of now; every snapshot stored before is unchanged with its ladders |
| Engine.Engine.Levels | internal/engine/engine.go:70-83 | the best n levels of a tracked venue, fresh |
| EngineRuns.StepSafe | internal/engine/engine.go:104-196 | an event leaves a book empty and not ready, or ready and strictly uncrossed; a Kraken book within depth and verified |
| EngineRuns.RunSafe | internal/engine/engine.go:104-196 | the same over every run of one venue's events, against the last book event's checksum |
| EngineRuns.EngineSafe | internal/engine/engine.go:101-196 | the same for every venue of an engine over every sequence of events |
| EngineRuns.VenuesIndependent | internal/engine/engine.go:104-155 | each venue's book is driven by that venue's events alone, in order |
| EngineRuns.MergeIndependent | internal/engine/engine.go:104-155 | streams with the same events per venue leave the same books |
| EngineRuns.ProjectMerge | internal/engine/engine.go:85-99 | any interleaving of two feeds projects back to each feed |
| EngineRuns.AnyMerge | internal/engine/engine.go:85-155 | any interleaving of two feeds gives each venue the book of its own feed |
| EngineRuns.SnapshotForgets | internal/book/book.go:141-148 | after a snapshot, what the book was before does not matter |
| EngineRuns.OnlySinceSnapshot | internal/engine/engine.go:118-152 | the book depends only on the events from the last snapshot on |
| EngineRuns.ResyncEmpties | internal/engine/engine.go:188-196 | a request is made exactly when a book event leaves its book empty; only a snapshot makes a book ready |
| Consolidate.Consolidate | internal/consolidate/consolidate.go:22-69 | best bid and ask over the quoting venues, sizes summed at those prices, the larger size attributed and the earlier venue at an equal one, spread and mid as int64 |
| Consolidate.MeetBidBest | internal/consolidate/consolidate.go:37-47 | meeting one more venue keeps the bid half the best so far |
| Consolidate.MeetAskBest | internal/consolidate/consolidate.go:48-57 | meeting one more venue keeps the ask half the best so far |
| Consolidate.CrossNeedsTwoVenues | internal/consolidate/consolidate.go:64-67 | with uncrossed venues a cross takes its halves from two different quoting venues |
| Published.ShownTop | internal/engine/engine.go:206-220 | a shown top's best bid and ask are the extremes of that venue's book |
| Published.SizesAgree | internal/consolidate/consolidate.go:37-57 | at a price no venue beats, the sizes summed from the tops are the sizes the books hold |
| Published.EveryPublished | internal/engine/engine.go:198-247 | in every snapshot of every run the consolidation is the best over ready two-sided venues, its sizes are what their books hold at those prices, and a cross has two different venues |
| Replica.SetLevelsAt | internal/book/book.go:150-171 | what a message leaves at a price is its last word there, else what was there |
| Replica.Sandwich | internal/book/book.go:101-111 | any book between the best n of the venue's and the whole has the same best n |
| Replica.SideFollows | internal/book/book.go:150-178 | applying a report to the truncated side and truncating again gives the venue's new best levels |
| Replica.StepFollows | internal/engine/engine.go:118-152 | one truthful event moves the engine's book from the venue's view to its next view, without a resync |
| Replica.SessionFollows | internal/engine/engine.go:134-151 | over every truthful session the book is the venue's own top of book after every event and no resync is asked for |
| Replica.ViewTops | internal/engine/engine.go:165-177 | the ten levels the checksum covers are the venue's own ten best when depth is at least ten |
| BenchFeed.GenerateEvents | internal/bench/replay.go:10-82 | the generated events: a snapshot of the slots, then one-slot overwrites, each with the slots' checksum |
| BenchFeed.FillSlots | internal/bench/replay.go:24-29 | ten price-ordered slots a side |
| BenchFeed.MkLevel | internal/bench/replay.go:31-41 | a slot's strings parse to its level |
| BenchFeed.MkLevels | internal/bench/replay.go:57-62 | all slots of a side as levels |
| BenchFeed.SnapshotEvent | internal/bench/replay.go:55-63 | the snapshot lists the slots and carries their checksum |
| BenchFeed.OverwriteSlot | internal/bench/replay.go:66-77 | event i changes one size of one side in place |
| BenchFeed.UpdateEvent | internal/bench/replay.go:66-79 | and reports that level with the checksum of the slots after it |
| BenchFeed.SlotParses | internal/bench/replay.go:17-41 | every generated price and size string parses exactly |
| BenchFeed.UpdateTells | internal/bench/replay.go:65-80 | a generated update reports its market truthfully |
| BenchFeed.SnapshotTells | internal/bench/replay.go:55-63 | the generated snapshot reports its market truthfully |
| BenchFeed.FeedIsHonest | internal/bench/replay.go:10-82 | the whole generated feed is a truthful session |
| BenchFeed.FeedFollowed | internal/bench/harness.go:112-114 | after event i the engine holds the view of the i-th market and was asked for nothing |
| BenchFeed.FeedView | internal/bench/replay.go:42-51 | that view is exactly the slots, full, uncrossed, with the event's checksum |
| BenchFeed.FeedNeverResyncs | internal/bench/replay.go:10-82 | for every length: the depth-ten Kraken book equals the slots after every event, full, uncrossed, checksum matching, never a resync |
| Resync.DeliverKeeps | internal/feed/coinbase/feed.go:67-78 | handing on or losing any frame, of either kind and in any order, keeps every feed's invariant |
| Resync.ConsumeKeeps | internal/engine/engine.go:87-99 | the engine's step keeps every feed's invariant, whichever venue the event is from, also before the resync it owes is asked for |
| Resync.DialKeeps | internal/feed/wsutil/dial.go:53-105 | a new session keeps it, with a token left over or old frames still queued |
| Resync.TeardownKeeps | internal/feed/wsutil/dial.go:82-105 | taking the token, in time or after the session is over, and ending a session keep it |
| Resync.AskKeeps | internal/feed/coinbase/feed.go:36-42 | asking for the restart that the read loop or the engine owes keeps it |
| Resync.StepKeeps | internal/feed/wsutil/dial.go:82-167 | every step of every feed and of the engine keeps the invariant |
| Resync.EveryRun | internal/feed/wsutil/dial.go:135-167 | so every interleaving does |
| Resync.RecoveryAlwaysInFlight | internal/feed/kraken/feed.go:69-78 | in every reachable state, also between a failed send or a lost book and the request for a restart, the channel is within capacity and a not-ready book or a lossy session has recovery in flight: a restart asked for or owed, a teardown, or this session's snapshot to come or on the channel |
| Resync.SettledIsWhole | internal/engine/engine.go:188-196 | once a venue's session is up with no restart asked for or owed and nothing queued, its book is ready and is the book of exactly what this session sent |
| Resync.SettledIsMarket | internal/engine/engine.go:188-196 | and, from a truthful venue, it is the venue's own book |
| Resync.HonestSessionIsQuiet | internal/engine/engine.go:134-151 | a truthful session that lost nothing never makes the engine ask for another |
| Feed.Channel.TrySend | internal/feed/coinbase/feed.go:72-77 | a send that never blocks: it appends, or refuses exactly when full |
| Feed.Channel.constructor | cmd/tickstreamd/main.go:121 | an empty channel of the given capacity |
| Feed.Channel.Receive | internal/engine/engine.go:92 | the engine takes the oldest event |
| Feed.Feed.constructor | internal/feed/coinbase/feed.go:28-31 | no session and no restart pending |
| Feed.Feed.RequestResync | internal/feed/coinbase/feed.go:36-42 | a request is pending afterwards, however many were made |
| Feed.Feed.OnMessage | internal/feed/kraken/feed.go:59-79 | queued as the protocol delivers it, or dropped with a restart pending, others and the watcher running before it is asked for; undecodable frames change nothing |
| Feed.Feed.Deliver | internal/feed/coinbase/feed.go:67-74 | the protocol's delivery step: queued, or dropped with a restart owed exactly when the channel is full |
| Feed.Feed.Lose | internal/feed/coinbase/feed.go:74-77 | a lost frame leaves a restart pending whatever the others and the watcher do before it is asked for |
| Feed.Feed.Ask | internal/feed/coinbase/feed.go:36-42 | the protocol's step that asks for the restart owed |
| Feed.Feed.Restart | internal/feed/wsutil/dial.go:82-91 | the watcher's step: token taken, session cancelled |
| Feed.Feed.Dial | internal/feed/wsutil/dial.go:53-92 | a new session with nothing sent or lost; a request left over stays pending |
| Feed.Feed.HandOn | internal/feed/coinbase/feed.go:56-79 | as long as nothing is lost, what the session handed on is what it was sent |
| Feed.Feed.Turn | internal/feed/wsutil/dial.go:93-104 | one turn of the read loop, the watcher firing before the frame or while it is lost |
| Feed.Feed.Meanwhile | internal/feed/coinbase/feed.go:67-78 | nothing the engine or another feed does disturbs this session's part of the channel |
| Feed.Feed.DialAndRun | internal/feed/wsutil/dial.go:53-105 | with the engine receiving and asking and the other feeds sending meanwhile: a lossless session hands on every decoded frame in order; a lossy one ends restarted or with the restart pending |
| ExecCost.Mul64 | internal/execcost/ladder.go:96-113 | the two words of the product recompose it |
| ExecCost.WideQuotientFits | internal/execcost/ladder.go:100-113 | the hardware division never traps once the high word is below the divisor |
| ExecCost.MulDiv | internal/execcost/ladder.go:96-113 | the exact floor, precisely when it fits int64 |
| ExecCost.TotalDepth | internal/execcost/ladder.go:153-160 | the sum of sizes as int64 holds it |
| ExecCost.FillsWithin | internal/execcost/ladder.go:189-211 | each fill is part of the level at its own index |
| ExecCost.FillsTake | internal/execcost/ladder.go:189-211 | the fills sum to the order or to all there is |
| ExecCost.FloorBounds | internal/execcost/ladder.go:189-211 | with k fills the notional is within k(Scale-1) of the exact cost and never above it |
| ExecCost.FloorsAndRemainders | internal/execcost/ladder.go:189-211 | the notional is the exact cost less the fills' remainders |
| ExecCost.PriceBounds | internal/execcost/ladder.go:189-211 | the exact cost lies between the lowest and the highest price filled times the quantity |
| ExecCost.AvgAtMost | internal/execcost/ladder.go:213-225 | the average never exceeds the highest price filled, so its division never overflows |
| ExecCost.AvgAtLeast | internal/execcost/ladder.go:213-225 | rounding takes it below the lowest price filled by less than one unit per fill, spread over the quantity, plus one |
| ExecCost.Consume | internal/execcost/ladder.go:189-211 | the loop takes the greedy fills, their sums and per-venue quantities, or stops at the fill that overflows |
| ExecCost.IsBestFirst | internal/execcost/ladder.go:175-182 | adjacent comparisons decide whether the whole ladder is best first |
| ExecCost.Walk | internal/execcost/ladder.go:162-234 | each error exactly under its condition; otherwise fills, sums, venues, average and slippage of the greedy walk |
| ExecCost.SellNeverGains | internal/execcost/ladder.go:236-246 | a sale's slippage is never negative |
| ExecCost.BuyRoundingBound | internal/execcost/ladder.go:236-246 | a buy's average is below the touch by less than the rounding of its fills |
| ExecCost.BuyGainsIff | internal/execcost/ladder.go:236-246 | a buy is reported at or above the touch if and only if the exact cost beyond the touch is at least the sum of the fills' remainders |
| ExecCost.BuyAtTouchIff | internal/execcost/ladder.go:236-246 | an order the first level fills is reported at or above the touch if and only if its notional needs no rounding |
| ExecCost.BuyCanSeemToGain | internal/execcost/ladder.go:236-246 | a concrete walk whose buy is reported ten thousand basis points better than the touch |
| Merge.Collect | internal/execcost/ladder.go:127-132 | one venue's levels with positive price and size, each as often as listed |
| Merge.SortLadder | internal/execcost/ladder.go:137-149 | some sorted arrangement of the same elements |
| Merge.Merge | internal/execcost/ladder.go:115-151 | sorted, and exactly the positive levels of every venue |
| Merge.BeforeTotal | internal/execcost/ladder.go:137-149 | levels the comparator does not order are equal |
| Merge.SortedUnique | internal/execcost/ladder.go:137-149 | so a multiset has one sorted arrangement |
| Merge.MergeUnique | internal/execcost/ladder.go:115-151 | the ladder does not depend on map order or on an unstable sort |
| Merge.MergeWalks | internal/execcost/ladder.go:117-182 | a walk of it never finds it unsorted or a level without liquidity |
| Merge.PriceFill | internal/execcost/fees.go:179-184 | a fill's notional, or failure exactly when it does not fit |
| Merge.NotionalByVenue | internal/execcost/fees.go:174-185 | every venue's share of the fills' notional, failing exactly when a fill cannot be priced |
| Merge.SplitAddsUp | internal/execcost/fees.go:171-193 | the shares re-sum to the walk's notional and none wraps when that fits |
| CostTheory.PaidCons | internal/execcost/ladder.go:189-211 | the cost of a walk is the first level's part plus a walk of the rest |
| CostTheory.OneMore | internal/execcost/ladder.go:189-211 | one unit more costs the price of the level it falls on |
| CostTheory.MarginalRises | internal/execcost/ladder.go:189-211 | and that price never falls as the size grows |
| CostTheory.Convex | cmd/tcastudy/main.go:10-23 | the exact cost is convex in size, for buys and mirrored for sales |
| CostTheory.GreedyOptimal | internal/execcost/ladder.go:162-211 | no allocation within the level sizes costs less than the walk |
| CostTheory.TakeAllocates | internal/execcost/ladder.go:189-211 | the walk itself is such an allocation |
| CostTheory.DepthHelps | cmd/tcastudy/main.go:10-23 | more size at the same prices never costs more |
| CostTheory.RoutingNeverCostsMore | cmd/tcastudy/main.go:238-263 | what one venue can fill, all venues fill at no higher exact cost |
| CostTheory.RoutedAgainstNaive | cmd/tcastudy/main.go:238-263 | routed notional at most naive plus its fills less one; mirrored for sales |
| CostTheory.LeftPays | cmd/tcastudy/main.go:10-23 | walking what an earlier walk left adds up to one walk |
| CostTheory.ImpactBand | cmd/tcastudy/main.go:10-23 | whatever part of the depth returns between slices, they cost between the slices on the untouched ladder and one walk of the total |
| CostTheory.ConsumingSlices | cmd/tcastudy/main.go:17-21 | when nothing returns they cost exactly the one walk |
| CostTheory.SlicedAgainstWhole | cmd/tcastudy/main.go:10-23 | in rounded notionals: at most the one walk plus its fills less one; mirrored for sales |
| SliceSpec.SliceConserves | cmd/tcastudy/main.go:283-306 | one slice keeps executed plus remaining equal to the size |
| SliceSpec.RunConserves | cmd/tcastudy/main.go:277-318 | so does every run of slices, and what is executed never shrinks |
| SliceSpec.DueIsRun | cmd/tcastudy/main.go:283-308 | the slices due at one record are a run on that record's ladder |
| SliceSpec.LifeIsRun | cmd/tcastudy/main.go:277-318 | a parent's life over any records is one run of slices over the ladders it met |
| SliceSpec.DueDeadline | cmd/tcastudy/main.go:282-308 | one record works a parent off exactly when it is at or after the deadline, if no slice fails |
| SliceSpec.LivedDeadline | cmd/tcastudy/main.go:277-318 | over any records, in any order of times: a parent has slices left if and only if none failed and every record was before its deadline |
| SliceSpec.NoneFails | cmd/tcastudy/main.go:289-298 | no slice fails while every ladder met is empty or can fill the whole order |
| SliceSpec.PlanEven | cmd/tcastudy/main.go:285-288 | the planned sizes sum to the order, never decrease and differ by at most one |
| SliceSpec.NeverEmptyEarly | cmd/tcastudy/main.go:285-288 | slices before the last never take all that is left |
| SliceSpec.FilledWhole | cmd/tcastudy/main.go:283-306 | when every due slice fills, sizes follow the plan and the parent fills whole at the sum of the slices |
| SliceSpec.StillMarket | cmd/tcastudy/main.go:10-23 | on an untouched ladder the sliced arm costs at most the routed arm, within rounding |
| SliceSpec.LastSliceDecides | cmd/tcastudy/main.go:285-315 | a parent completing without error is whole if and only if its last slice found a ladder or nothing was ordered |
| SliceSpec.PartialSettles | cmd/tcastudy/main.go:289-315 | a concrete parent that settles short |
| SliceSpec.DueKeeps | cmd/tcastudy/main.go:282-308 | working a parent keeps it conserved, and a live one free of error |
| SliceSpec.AdvancedAccounted | cmd/tcastudy/main.go:277-318 | after any record every open row has its live parent and no written row is rewritten |
| SliceSpec.StartedAccounted | cmd/tcastudy/main.go:265-272 | a decision adds one open row with its parent |
| SliceSpec.FinishedAccounted | cmd/tcastudy/main.go:350-357 | after the tape's end a row is unset exactly when a gap took its parent |
| SliceSpec.GapLoses | cmd/tcastudy/main.go:189-195 | a gap loses exactly the rows of the parents in flight |
| StudyRuns.AlongAccounted | cmd/tcastudy/main.go:188-318 | over any tape every open row has its live parent or lost it to a gap |
| StudyRuns.AdvancedRow | cmd/tcastudy/main.go:277-318 | a record works a row's own parent and no other touches the row |
| StudyRuns.RowFollows | cmd/tcastudy/main.go:188-318 | after any tape a row's parent is what its events made of it, unless a gap caught it with slices left |
| StudyRuns.RowFate | cmd/tcastudy/main.go:188-357 | at the tape's end such a row has its parent's outcome, is written off, or is unset, the last if and only if a gap caught the parent |
| StudyRuns.FateIs | cmd/tcastudy/main.go:188-357 | a gap catches a parent if and only if no slice failed and every event before the first gap is earlier than its deadline |
| StudyRuns.DecisionFate | cmd/tcastudy/main.go:188-357 | the same for every row of every decision of a tape, by the times on the tape: if no slice failed before the first gap after it, unset if and only if there is one and every event before it is earlier than the last slice, written off if and only if there is none and no event so late |
| StudyRuns.DeepDecisionFate | cmd/tcastudy/main.go:188-357 | while every ladder is empty or can fill the order, the row is unset if and only if the tape's times say so |
| StudyRuns.GapRightAfter | cmd/tcastudy/main.go:189-195 | the rows of a decision directly followed by a gap are unset, whatever the market did |
| StudyRuns.RowDecided | cmd/tcastudy/main.go:225-274 | every row a tape adds is a row of the decision made at one of its events |
| TcaStudy.DecisionRoutes | cmd/tcastudy/main.go:238-263 | in a decision whose naive arm fills, the routed arm fills or overflows, at no worse notional up to rounding |
| TcaStudy.PullLevels | cmd/tcastudy/main.go:218-221 | one venue's best thousand levels, none for an untracked venue |
| TcaStudy.PullLadder | cmd/tcastudy/main.go:216-223 | the consolidated ladder of both venues' engine depth |
| TcaStudy.Pending.constructor | cmd/tcastudy/main.go:269-272 | a parent with everything remaining and its first slice due now |
| TcaStudy.Study.constructor | cmd/tcastudy/main.go:92-101 | no rows, no parents, no decision scheduled |
| TcaStudy.Pending.WorkSlice | cmd/tcastudy/main.go:283-307 | one slice on the walk's actual result is the slice step on values |
| TcaStudy.Pending.Work | cmd/tcastudy/main.go:283-308 | every due slice is worked, in order |
| TcaStudy.Study.AdvanceSlices | cmd/tcastudy/main.go:276-318 | the in-place filter leaves exactly the live parents in order and writes the rows of the others |
| TcaStudy.Study.Turn | cmd/tcastudy/main.go:282-316 | one turn of that loop: the parent worked, and kept exactly when it lives |
| TcaStudy.Study.WorkAt | cmd/tcastudy/main.go:282-308 | the i-th parent worked with the others untouched |
| TcaStudy.Study.Keep | cmd/tcastudy/main.go:309-312 | a live parent moved to the end of those kept, in the array being read |
| TcaStudy.Study.WorkOne | cmd/tcastudy/main.go:282-315 | one parent worked, and its row written exactly when it stops |
| TcaStudy.Study.Settle | cmd/tcastudy/main.go:320-334 | the row's outcome: no fill, or filled size and notional |
| TcaStudy.Study.StartDecision | cmd/tcastudy/main.go:225-274 | one row per size with both arms walked, and its parent scheduled |
| TcaStudy.Study.Price | cmd/tcastudy/main.go:230-263 | both arms of one size: the best-priced venue's levels alone, and all |
| TcaStudy.Study.SameVenue | cmd/tcastudy/main.go:239-245 | the levels of one venue, in order |
| TcaStudy.Study.Enter | cmd/tcastudy/main.go:265-272 | row and parent enter together |
| TcaStudy.Study.Append | cmd/tcastudy/main.go:269-272 | a parent added at the end, the others untouched |
| TcaStudy.Study.Finish | cmd/tcastudy/main.go:350-357 | every parent still working is written off in its row |
| TcaStudy.Study.Skip | cmd/tcastudy/main.go:189-195 | a gap drops the parents and writes no row |
| TcaStudy.Study.Decide | cmd/tcastudy/main.go:199-213 | slices first, then a decision exactly when one is due |
| TcaStudy.Study.Take | cmd/tcastudy/main.go:196-213 | an event steps the engine's books, then the study on the ladder they show |
| TcaStudy.Study.OnRecord | cmd/tcastudy/main.go:188-214 | one record's whole effect on engine, rows, parents and schedule is the step on values |
| TcaStudy.Study.Replay | cmd/tcastudy/main.go:188-357 | over a whole tape the study ends where the step on values, folded over the tape and the ladders the engine showed, ends; no row is written twice, and the engine ran the tape's events |
| CaptureSpec.QueuedKeeps | internal/capture/capture.go:170-171 | a queued offer goes to the tape's end and keeps every marker placed |
| CaptureSpec.DroppedKeeps | internal/capture/capture.go:172-176 | a counted loss goes to the next marker and keeps every marker placed |
| CaptureSpec.OtherKeeps | internal/capture/capture.go:284-328 | no step of the drain, and no other of the producer or a close, changes what the tape will be |
| CaptureSpec.EveryRun | internal/capture/capture.go:166-328 | every interleaving of the producer's, the drain's and the closing steps keeps each offer accounted for once, in order, and each marker placed |
| CaptureSpec.StoppedTape | internal/capture/capture.go:284-328 | the finished tape: a marker precedes everything offered after the loss it counts, and of what was offered before at most bufSize + 1 events follow it; every offer is accounted for if and only if no loss was counted after the last swap |
| GapPlacement.ExactPlace | internal/capture/capture.go:166-177 | the events offered before a loss that come after its marker are exactly those on the channel and the one the drain held uncounted when the loss was counted, at most bufSize + 1 |
| GapPlacement.SinceSend | internal/capture/capture.go:170-176 | a pending loss goes back to a send that found the channel full, and what was then waiting still is, but for one event per swap made since |
| GapPlacement.LossMoment | internal/capture/capture.go:172-176 | every loss a marker counts was counted at some step |
| GapPlacement.InPlaceIff | internal/capture/capture.go:52-53 | over every run markers stand where the losses happened if and only if nothing was waiting whenever a loss was counted |
| GapPlacement.PromiseIff | internal/capture/capture.go:52-53 | the same of every finished tape that counts every loss; it has a marker if and only if a loss was counted |
| GapPlacement.Finish | internal/capture/capture.go:179-188 | every run whose producer is between two offers can be closed and drained, and the tape is then the projected one |
| GapPlacement.AfterShut | internal/capture/capture.go:166-185 | once the channel is shut the producer is about to send on it if and only if it was when it was shut, and unless a loss was pending then the last swap takes every loss |
| GapPlacement.CloseIff | internal/capture/capture.go:163-185 | every way the run goes on gives a tape that accounts for every offer if and only if no loss was pending when the channel was shut |
| GapPlacement.ClosedLate | internal/capture/capture.go:163-185 | otherwise some run counts the loss after the drain has stopped, and no tape has it |
| GapPlacement.AfterClose | cmd/tickstreamd/main.go:172-177 | a recorder closed between two offers never panics and accounts for every offer |
| GapPlacement.MarkerCanBeEarly | internal/capture/capture.go:305-313 | for every buffer size a finished run whose marker is bufSize + 1 events early |
| GapPlacement.MarkerCanBeInPlace | internal/capture/capture.go:170-176 | for every buffer size a finished run with a loss whose marker is in place |
| Capture.NewWriter | internal/capture/capture.go:123-161 | refused without a directory or when the first file fails; otherwise an empty recorder with its defaults |
| Capture.Writer.constructor | internal/capture/capture.go:123-161 | an empty first file, buffer size defaulted, nothing offered |
| Capture.Writer.Receive | internal/capture/capture.go:289-298 | the next event in the order offered |
| Capture.Writer.CountDropped | internal/capture/capture.go:305-307 | the drop counter is read and zeroed in one step |
| Capture.Writer.Others | internal/capture/capture.go:163-188 | offers in order until the daemon closes, none after; a failed send is counted before the next offer, also after the close |
| Capture.Writer.Offer | internal/capture/capture.go:166-171 | never blocks: queued, left to be counted exactly when the buffer is full, or ignored after closing |
| Capture.Writer.CountLoss | internal/capture/capture.go:172-176 | the offer whose send failed is counted, by one |
| Capture.Writer.PutRecord | internal/capture/capture.go:330-366 | one record at the end of the tape, in the next file when rotating; nothing after an error |
| Capture.Writer.Rotate | internal/capture/capture.go:243-251 | the next file has the next number and no record is lost |
| Capture.Writer.WriteGap | internal/capture/capture.go:308-312 | the marker counts exactly the drops read |
| Capture.Writer.WriteTaken | internal/capture/capture.go:313-315 | the event in hand is the tape's next record |
| Capture.Writer.MarkDropped | internal/capture/capture.go:305-312 | what was dropped until the counter is read is marked, if anything was |
| Capture.Writer.WriteEvent | internal/capture/capture.go:305-316 | marker then event, other goroutines offering or closing in between; the invariants hold throughout and the log is what was offered before the close |
| Capture.Writer.WriteFinalGap | internal/capture/capture.go:318-328 | what was counted until the last swap is marked before the file closes, a late producer still counting meanwhile |
| Capture.Writer.CloseCurrent | internal/capture/capture.go:256-273 | the file is finished, an error recorded if that fails |
| Capture.Writer.DrainRest | internal/capture/capture.go:289-303 | after the close the drain writes what is queued and stops; when no offer is left uncounted, recorded events plus counted losses are the offers, every marker is placed, and a tape without a marker is the offers; only an offer whose send had failed before the close can be left |
| Capture.Writer.Close | internal/capture/capture.go:179-188 | the channel is closed and drained; it reports the first error, and unless it does and unless an offer is left uncounted everything is on tape, which is so when the producer was between two offers |
| Capture.Writer.CloseAmid | internal/capture/capture.go:179-188 | the same when the close arrives while an event is being written, whose write is finished first |
| Capture.StoppedRecords | internal/capture/capture.go:284-303 | the same for any stopped recorder's files |
| TapeTheory.TapeContents | internal/capture/capture.go:52-58 | the tape's events are the offers it names, its counters sum to the rest |
| TapeTheory.NothingUncounted | internal/capture/capture.go:163-177 | recorded plus lost equals offered |
| TapeTheory.GapFreeIsLog | internal/engine/engine.go:40-50 | a tape without a gap is the log |
| TapeTheory.FaithfulReplay | internal/engine/engine.go:40-50 | so it drives a fresh engine to the live books |
| TapeTheory.SnapshotAfterLosses | internal/capture/capture.go:5-9 | a venue is rebuilt once a snapshot offered after every loss is on tape |
| TapeTheory.FarEventsAfterLosses | internal/capture/capture.go:305-313 | events more than the buffer size past the last marker were offered after every loss |
| TapeTheory.Heals | internal/capture/capture.go:305-313 | a snapshot there heals its venue |
| TapeTheory.LateLossMisses | internal/engine/engine.go:134-151 | when a loss was offered after a snapshot, some run replays to another book |
| TapeTheory.HealsIff | internal/capture/capture.go:5-9 | a snapshot on tape heals its venue, whatever was offered, if and only if it was offered after every loss |
| TapeTheory.PositionsAfterLosses | internal/capture/capture.go:305-313 | which positions after the last marker that is: exactly those at or beyond the number of events its last loss was marked before |
| TapeTheory.HealsExactly | internal/capture/capture.go:166-177 | over every finished run that counts every loss: a snapshot after the last marker heals if and only if its position is at least the number of events waiting when the last loss was counted |
| TapeTheory.NearSnapshotMisses | internal/capture/capture.go:305-313 | for every buffer size a finished run whose snapshot at position bufSize does not heal |
| Replay.NameRoundTrip | internal/capture/capture.go:393-413 | a file name gives back its run id, hyphens and all, and its number |
| Replay.LongerRunClashes | internal/capture/capture.go:499-526 | the file of a run whose id extends this one by a hyphen and more has no number under this one |
| Replay.HyphenRunClashes | internal/capture/capture.go:513-526 | and of one whose id extends it by a hyphen alone, the negated number |
| Replay.GlobsIff | internal/capture/capture.go:500-501 | another run's files match the pattern if and only if its id is this one or extends it by a hyphen |
| Replay.ReadableBesideIff | internal/capture/capture.go:499-547 | a complete run reads back beside others if and only if no other id extends its own by a hyphen, and which error it is otherwise |
| Replay.IntactReplay | internal/capture/capture.go:534-547 | finished files read back as all their records, in order |
| Replay.CutReplay | internal/capture/capture.go:549-600 | a run whose last file was cut reads back as a prefix of the tape, reported as truncated, if and only if the cut came after the gzip header |
| Replay.LastFileDecides | internal/capture/capture.go:549-600 | for every last file: when the run reads back and which error it is otherwise, when it is truncated, and when it is a prefix |
| Replay.EmptyLastFile | internal/capture/capture.go:555-561 | an empty last file makes the run unreadable |
| Replay.AlteredReplay | internal/capture/capture.go:582-589 | a last file with a checksum that does not match is never an error: it counts as truncated, and the run reads back as a prefix of the tape if and only if what decodes of it is a prefix of what was written |
| Replay.AlteredIsRead | internal/capture/capture.go:582-589 | a record altered in such a file is read as if it had been recorded |
| Replay.FaultInside | internal/capture/capture.go:555-589 | anything wrong with any other file is an error, after the records before it |
| Replay.ReplayFile | internal/capture/capture.go:549-600 | each record handed on and counted until the callback fails; header and ending faults as the last or an inner file |
| Replay.ReadFiles | internal/capture/capture.go:534-547 | file after file until one is cut, altered or faulty, or the callback fails |
| Replay.SortByNumber | internal/capture/capture.go:513-527 | the files by number, or failure exactly when one has none |
| Replay.IsContiguous | internal/capture/capture.go:528-532 | whether the numbers are 0 to n-1 |
| Replay.SortedIsArranged | internal/capture/capture.go:527-532 | sorting by number gives the one arrangement 0 to n-1, when there is one |
| Replay.ReplayRun | internal/capture/capture.go:496-547 | whatever else is in the directory: each error exactly under its condition, otherwise the reading of the arranged files up to a record the callback fails on |
| Replay.Glob | internal/capture/capture.go:500-501 | exactly the files whose name matches the run's pattern |
| Replay.ReplayFound | internal/capture/capture.go:509-547 | files found in any order: each error exactly under its condition, otherwise the reading of the arranged files up to a record the callback fails on |
| Replay.WrittenIsArranged | internal/capture/capture.go:243-251 | a finished run's files are numbered 0 to n-1 whatever order they are found in |
| Replay.TapeDrivesEngine | internal/engine/engine.go:40-50 | for a stopped recorder: record, rotate, close, find among other runs, sort, read, apply; every offer is accounted for, and without a loss the replayed books are the live ones |
| FixedPoint.ParseWhole | internal/model/types.go:119-130 | digits parse to their number exactly when it fits int64 |
| FixedPoint.AddFraction | internal/model/types.go:135-153 | a fraction is added as int64 arithmetic does, accepted exactly when beyond eight digits only zeros follow |
| FixedPoint.ParseFixed | internal/model/types.go:100-154 | accepted exactly when a decimal with a fitting integer part; the result is the scaled value as int64 holds it |
| FixedPoint.ParseExactIff | internal/model/types.go:131-151 | exact if and only if integer part or fraction is below the bound; otherwise negative |
| FixedPoint.ParseCanWrap | internal/model/types.go:131-151 | an accepted string whose value wraps |
| FixedPoint.FormatFixed | internal/model/types.go:168-188 | the decimal without trailing zeros, with the sign; the least int64 prints with two signs |
| FixedPoint.RoundTrip | internal/model/types.go:104-188 | parsing what was printed gives the number back, for every non-negative int64 |
| FixedPoint.FmtValDenotes | internal/checksum/crc32.go:24-27 | the checksum digits have no leading zero and denote the exact value, shifted to eight decimals |
| FixedPoint.NumeralUnique | internal/checksum/crc32.go:24-27 | digits without a leading zero are determined by their number |
| FixedPoint.FmtValFaithful | internal/checksum/crc32.go:24-27 | at equal precision, equal digits if and only if equal values |

## Left out

- ExecCost.Walk: for ladders with a non-positive price or size only the error conditions before the loop are stated; the consolidated ladder never holds such levels.
- ExecCost.Consume: the same, for the loop alone.
- Capture.Writer.Offer: the drop counter is unbounded here, a 64-bit counter in the code; no close comes between its look at the closed flag and its send (`GapPlacement.AfterShut` says what happens then).
- Replay.ReplayRun: a run id with pattern characters in it is not modelled.
- Engine.Engine.Publish: signals, wall-clock fields and latencies of a snapshot are not modelled; its map of venues is a value, so that the map never changes holds by construction, and only the ladders and the snapshot itself are heap objects proved unchanged.
- Engine.Snapshot.constructor: the same fields are missing.
- TcaStudy.Study.Settle: the outcome keeps filled size and notional; the basis points, drift and fee rates computed from them are floating point.
- TcaStudy.Study.Price: a row keeps both walks whole instead of the slippage, fees and Kraken share computed from them.
- Slippage is a real number rather than a float, and no float result is claimed.
- CRC-32 is a parameter: any function of the concatenated tokens.
- Websockets, subscriptions, pings, backoff and JSON decoding: a session is dialled, delivers frames, is cancelled or ends.
- gzip, gob and the file system: a file is a header and the records that decode of it, ending properly, cut, with a checksum that does not match, or damaged; rotation is a free choice at every write.
- Liveness of the goroutines: recovery is proved to be in flight, not to arrive.
- The resilience measurement, medians, reports and CSV output, fee tiers, metrics, recorder statistics, listing of runs, HTTP, dashboard and scripts.
