# HoMoPaD core, modelled in Dafny

HoMoPaD finds *homopaths* in a road network: paths of edges along which a
large enough share of the same moving objects was observed. Each region of
the network has its own regional leader, which finds the homopaths inside
the region. A top leader then joins homopaths of adjacent regions into
spanning homopaths. Offline scripts prepare the inputs: they partition the
map into regions, cut the network-wide files per region, and build the
successor lists and the connection map between regions. Another set of
scripts drives and compares experiments.

This project models that core as Dafny functions, methods and lemmas. File
and socket contents are given as values:
- a file is its lines, already split at commas where the source does so;
- a request or a reply is a decoded value;
- dictionaries are given in their iteration order.

Every error the source raises on an input it does not guard against is
modelled as a `Result` error carrying the Python exception's name (module
`Wrappers`). Such errors include `int('')` on a blank line, `min` of nothing
and `None * 4`.

## Modules

Regional leader (Code/homopa.py, with its older copy Code/HoMoPaD/homopa.py):
- `Engine`, `EngineRounds`, `EngineRun`, `EnginePrune` and `EngineDistinct`
  model `calculate_obj_id_intersection`.
  - Round 1 turns sensor rows into homoedges.
  - Each round n >= 2 extends the previous round's paths by one successor
    edge. This applies the threshold on the object intersection and the
    cycle guard. The two copies differ in that guard.
  - After each round, pruning drops every contiguous window of a longer
    path from the previous bucket. When the sensor edges are distinct, every
    bucket holds distinct paths. So each pruning removes exactly the
    prefixes and suffixes of the next bucket's paths, and a finished table
    keeps no record that is the prefix or the suffix of a record one edge
    longer.
  - The rounds recurse while a round produces a path and n < 100.
  - The Boolean matrix is not kept: only its header row and header column
    are ever read.
  - A parameter selects raw mode or hashed mode (MinHash signatures, Cohen's
    estimate).
  - A second parameter selects the current copy or the older one.
- `Loaders` models the adjacency reader and the sensor reader, with their
  integer and byte counters.
- `Cohen` models Cohen's cardinality estimate over signatures.
- `Worker` models the request loop of `start_regional_leader` and the
  lookup `find_obj_ids_for_edge_path`.
- `Wire` models the text `str(set)` of an object set, and how the top leader
  reads it back.

Top leader (`start_Top_leader`):
- `Coordinator` and `CoordinatorFacts` model the three stages: collection,
  spanning and termination. They also model the trace of requests each
  region receives during collection and termination, and what the
  collection reads back from the workers. The spanning requests are not
  part of that trace.
- `Span` and `SpanFacts` model the spanning step. A path of region A is
  extended edge by edge with a linked path of region B while the carried
  intersection keeps its ratio.

Preparation (Code/preparation.py, with its older copy Code/HoMoPaD/preparation.py):
- `Successors` models `find_connected_edges`.
- `Partition` models the midpoint bisection and the recursive naming of map
  files.
- `Regions` models the per-region line filter and the region ids.
- `RegionConns` and `RegionConnsFacts` model the connection map between
  regions.
- `Sensors` models the motion-to-sensor inversion.
- `Results` models the result writers and the packet cost.

Experiment helpers (Code/experiment_creator.py, with its older copy Code/HoMoPaD/experiment_creator.py):
- `PairsFile` models the pair codes, the compare-file grouping, the output
  rows and the quote removal.
- `RepeatScan` models the sentinel-driven scan in `copy_files`.
- `ScriptOutput` models the last-integer rule of `run_script`.
- `ExperimentFolder` models folder-name parsing.
- `SensorHash` models the row preparation of `hash_data`. MinHash is a
  function parameter.

Python itself:
- `PyStr` models the `str`, `int`, `strip`, `split` and `join` it needs.
- `PyDict` models an insertion-ordered dictionary.
- `Seqs` holds list helpers.
- `Wrappers` holds the result types.

Where behaviour depends on which copy runs, the model takes a variant
parameter, or it models both copies and proves how they relate
(`RepeatScan.ScanRowsOld`, `ExperimentFolder.CopiesAgree`).

The spanning step appends edges of `p2` to `p1` while the intersection
carried along `p2` keeps its ratio at or above the threshold, and stops at
the first edge whose ratio falls below it (Code/homopa.py:385-459). The test
`edge_of_path2 == hot_path2[-1]` compares edge values, so a passing edge
equal to the last edge of `p2` ends the loop even when it occurs earlier in
`p2`; the model follows the code here (`SpanFacts.ExtendStops`). The
extended path is recorded exactly when some edge passed and either the loop
ended on such an edge or the carried intersection is not empty. For a
positive threshold a passing edge always carries a non-empty intersection,
so the record is made exactly when an edge passed, and a pair that fails at
its first edge records nothing. With a threshold of zero or below the last
passing edge can record an empty object list.

Threshold comparisons are made over exact reals, whereas Python compares
IEEE doubles.

## Model

| member | source | states |
|---|---|---|
| Cohen.ZipLen | Code/homopa.py:2342 | the length of `zip(*sigs)` is at most the length of every signature and equals the length of one of them |
| Cohen.ColMin | Code/homopa.py:2346 | `min(column)` is at most every entry of its column and is one of those entries |
| Cohen.Trunc | Code/homopa.py:2318 | `int()` on a float truncates toward zero: the result is within 1 of x, on the side of zero |
| Cohen.MinimaRule | Code/homopa.py:2342-2346 | the minima vector is as long as the shortest signature, each entry is at most every entry of its column and occurs in that column |
| Cohen.MinimaAdd | Code/homopa.py:2342-2346 | one more signature never lengthens the minima vector and never raises a column minimum |
| Cohen.SumShrinks | Code/homopa.py:2342-2349 | a signature at least as long as the others can only lower `total_sum` |
| Cohen.CardinalityGrows | Code/homopa.py:2275-2357 | with a positive sum of minima and non-negative `num_perm`, both estimates are defined and adding a signature never lowers the estimated cardinality |
| Coordinator.ReadBack | Code/homopa.py:1025-1070 | what the coordinator decodes from a region's replies to requests 3, 5 and 4 is exactly the region's paths (when it has homopaths), its integer count (otherwise -1) and its object set (an empty set cannot be read) |
| Coordinator.ReadCount | Code/homopa.py:798-812 | the decoded count reply is the region's integer count when it has homopaths, and -1 otherwise |
| Coordinator.NoCount | Code/homopa.py:1047-1052 | a region without homopaths answers "-1", and `int()` reads that as -1 |
| Coordinator.ReadObjs | Code/homopa.py:210-211 | the object reply, cut at its brackets and split at commas, reads back as the region's objects; an empty set fails with ValueError |
| Coordinator.CollectNext | Code/homopa.py:187-278 | one more region extends the collection by `Collect1`, and a failure there is the outcome of the whole collection |
| Coordinator.Gather | Code/homopa.py:187-278 | the collection loop computes the collection specification, stopping at the first failing region |
| Coordinator.GatherOne | Code/homopa.py:188-278 | the loop body is one collection step on what the region's worker holds |
| Coordinator.GatherReady | Code/homopa.py:192-274 | a region with homopaths gives its paths, object set and integer count, or the first failure among them |
| Coordinator.GatherOther | Code/homopa.py:206-278 | a region without homopaths gives its object set and is closed with "[-1]" |
| Coordinator.Stops | Code/homopa.py:649-650 | one "[-1]" message per region with homopaths, in order |
| Coordinator.Terminate | Code/homopa.py:649-650 | the termination loop appends exactly those messages to the trace |
| Coordinator.RunSpanStage | Code/homopa.py:305 | the spanning step runs only when at least two regions have homopaths and otherwise leaves everything empty |
| Coordinator.Coordinate | Code/homopa.py:139-656 | the three stages compute the top leader's specification: collection, spanning, termination and the count of regions with homopaths |
| CoordinatorFacts.ReadyIds | Code/homopa.py:190 | an id is among the ready ids exactly when some region with that id has homopaths |
| CoordinatorFacts.StepFacts | Code/homopa.py:188-278 | one collection step adds the region's objects, paths, integers and requests, and nothing else |
| CoordinatorFacts.StepOk | Code/homopa.py:210-263 | one collection step succeeds exactly when the region holds at least one object, and otherwise fails with ValueError |
| CoordinatorFacts.CollectOkUpto | Code/homopa.py:187-278 | the first `i` regions are collected without error exactly when each of them holds an object |
| CoordinatorFacts.CollectOk | Code/homopa.py:187-278 | collection succeeds exactly when every region holds at least one object, and otherwise fails with ValueError |
| CoordinatorFacts.CollectPrefix | Code/homopa.py:187 | collecting the first `i` regions of a list is collecting that prefix on its own |
| CoordinatorFacts.CollectFacts | Code/homopa.py:172-278 | after collection: the ready ids in order, the union of all object sets, four bytes per first-level integer, the collection requests, and paths and objects kept for exactly the ready regions |
| CoordinatorFacts.FactsStep | Code/homopa.py:188-278 | the summary of `CollectFacts` carries over one more region |
| CoordinatorFacts.SumsStep | Code/homopa.py:188-278 | the ready ids, requests, objects and byte count over one more region |
| CoordinatorFacts.KeysStep | Code/homopa.py:230-274 | `all_hot_paths` and `objOfRegion` stay keyed by exactly the ready ids |
| CoordinatorFacts.SentAppend | Code/homopa.py:662-833 | the requests sent to one region over two traces are those of each trace, in order |
| CoordinatorFacts.PeerSent | Code/homopa.py:188-278 | during collection a region receives only its own requests |
| CoordinatorFacts.AllSent | Code/homopa.py:187-278 | with distinct ids, the collection requests a region receives are exactly its own, and none for an unknown id |
| CoordinatorFacts.StopsAppend | Code/homopa.py:649-650 | the closing messages of two lists of ids are those of each list |
| CoordinatorFacts.StopsSent | Code/homopa.py:649-650 | with distinct ids, termination closes a region once when it has homopaths and not otherwise |
| CoordinatorFacts.ReadyCount | Code/homopa.py:656 | the number of ready ids is the number of regions with homopaths |
| CoordinatorFacts.TraceRule | Code/homopa.py:187-656 | over collection and termination, each region receives 3, 4, 5 and "[-1]" when it has homopaths and 4 and "[-1]" otherwise, and the result counts the regions with homopaths; the spanning requests 1 and 2 sent between the two stages are not recorded |
| CoordinatorFacts.SpecOutcome | Code/homopa.py:649-656 | the outcome's trace and result come from the collection stage |
| CoordinatorFacts.CollectTrace | Code/homopa.py:187-650 | the requests one region receives over collection and termination |
| CoordinatorFacts.OneStop | Code/homopa.py:278-650 | either request sequence holds exactly one "[-1]" |
| CoordinatorFacts.ClosedOnce | Code/homopa.py:278-650 | every region is closed exactly once |
| CoordinatorFacts.RowIn | Code/homopa.py:347-349 | a job is in the `hot_path2` loop exactly when its second path is one of that list |
| CoordinatorFacts.GridIn | Code/homopa.py:345-349 | a job is in the `hot_path1`/`hot_path2` loops exactly when its paths come from the two lists |
| CoordinatorFacts.AgainstBIn | Code/homopa.py:340-348 | a job is in the `length2` loop exactly when its second path is in one of B's visited lengths |
| CoordinatorFacts.ItemsBIn | Code/homopa.py:322-348 | a region B pairs with A only when B is not A |
| CoordinatorFacts.OverBsIn | Code/homopa.py:322 | a job is in the `region_id2` loop exactly when its region B is one of the ready ids |
| CoordinatorFacts.OverLensIn | Code/homopa.py:316-320 | a job is in the `length` loop exactly when its first path is under a length > 0 with a non-empty list |
| CoordinatorFacts.OverAsIn | Code/homopa.py:309-313 | a job is in the `region_id` loop exactly when its region A is one of the ready ids |
| CoordinatorFacts.ItemsIn | Code/homopa.py:305-348 | a pair job occurs in the spanning loops exactly when its two regions are different ready regions, its paths are theirs, and it carries their tables and `numberOfObjects` |
| CoordinatorFacts.NoSpanBelowTwo | Code/homopa.py:305 | with at most one region holding homopaths there are no spanning paths |
| CoordinatorFacts.SpanOrigin | Code/homopa.py:305-460 | every spanning path extends a path of one region by a non-empty prefix of a path of another, linked region |
| CoordinatorFacts.HotUpto | Code/homopa.py:229-274 | a region with homopaths is kept with exactly the paths and objects its worker holds |
| CoordinatorFacts.CollectPrev | Code/homopa.py:187 | a collection that succeeds also succeeded one region earlier |
| CoordinatorFacts.HotHere | Code/homopa.py:229-274 | the region collected last is kept with its paths and objects |
| CoordinatorFacts.HotKeep | Code/homopa.py:229-274 | a later region with another id leaves what is kept for an earlier one |
| CoordinatorFacts.StepHot | Code/homopa.py:229-274 | what one collection step does to the kept paths and objects |
| CoordinatorFacts.TableOfPeer | Code/homopa.py:362-389 | with distinct ids, the table that answers for a region id is that region's own |
| CoordinatorFacts.LensTable | Code/homopa.py:316-344 | the lengths the loops visit reach exactly the table's paths under a length > 0 |
| CoordinatorFacts.ItemsPeers | Code/homopa.py:305-348 | two regions are paired exactly when they are different and both have homopaths; the paths are theirs, the job carries their tables, and raw mode counts the objects both hold |
| Span.Put3Facts | Code/homopa.py:437-440 | `all_HOMOPATHS[X][Y][k] = v` sets that one entry and keeps every other entry and every level that existed |
| Span.TouchFacts | Code/homopa.py:310-337 | creating the missing levels changes no entry |
| Span.Leftover | Code/homopa.py:463-465 | an edge is left over exactly when it is an edge of `p2` that was not appended |
| Span.ExtDone | Code/homopa.py:385-459 | the edge loop ends at the last edge, at the first failure, or once the pair is settled, and nothing changes after that |
| Span.ExtSticky | Code/homopa.py:443-459 | once the edge loop has failed or stopped, later edges change nothing |
| Span.EdgeNext | Code/homopa.py:385-459 | one more edge advances the edge loop by one step |
| Span.EdgeLoop | Code/homopa.py:385-459 | the `for edge_of_path2 in hot_path2` loop computes the edge-loop specification |
| Span.AdvanceEdge | Code/homopa.py:386-459 | the loop body: fetch the edge's objects from B, carry the intersection, compare the ratio, then record, continue or stop |
| Span.ExtendPair | Code/homopa.py:362-471 | the linked branch for one pair computes its specification: the objects of `p1` from A, the edge loop, then the leftover edges of `p2` |
| Span.JobsNext | Code/homopa.py:309-477 | one more step of the flattened loops, and a failure there is the outcome of the whole spanning step |
| Span.JobsSticky | Code/homopa.py:309-477 | once a step has failed, later steps change nothing |
| Span.SpanAll | Code/homopa.py:309-477 | the spanning loops compute the spanning specification |
| Span.SpanItem | Code/homopa.py:310-477 | one step: create the missing levels, or handle one (p1, p2) pair by the link test |
| SpanFacts.CarrySubset | Code/homopa.py:406-417 | the carried intersection is drawn from the objects of `p1` and, after the first edge, never grows |
| SpanFacts.PassLastInv | Code/homopa.py:425-443 | a passing last edge records `p1` plus the appended edges under (A, B) and marks `p2` under (B, B) |
| SpanFacts.PassMoreInv | Code/homopa.py:425-446 | a passing edge before the last one appends that edge and goes on |
| SpanFacts.FailInv | Code/homopa.py:447-459 | a failing edge records what passed so far, if anything, and stops |
| SpanFacts.RatioZero | Code/homopa.py:421-422 | helper: an empty intersection has ratio 0, used to show that a passing edge under a positive threshold carries objects |
| SpanFacts.PassInv | Code/homopa.py:425-446 | a passing edge keeps the edge-loop invariant |
| SpanFacts.FailStepInv | Code/homopa.py:447-459 | a failing edge keeps the edge-loop invariant |
| SpanFacts.AdvanceInv | Code/homopa.py:386-459 | every successful step of the edge loop keeps its invariant |
| SpanFacts.ExtUptoInv | Code/homopa.py:385-459 | the invariant holds after every prefix of `p2` the loop reaches |
| SpanFacts.LeftoverMissesHead | Code/homopa.py:462-471 | once the first edge is appended, the leftover edges are not all of `p2` |
| SpanFacts.ExtendRule | Code/homopa.py:362-471 | one linked pair: the appended edges are a prefix of `p2`; `p1` plus that prefix is recorded under (A, B) at most once, and for a positive threshold exactly when an edge passed, with objects of `p1`; `p2` is marked -1 under (B, B) and its other edges stored with 0; nothing else changes |
| SpanFacts.StopStep | Code/homopa.py:386-459 | one edge of the loop keeps the stopping invariant: the appended edges all passed with the intersection folded along `p2`, and a stopped loop either settled on an edge equal to the last one or failed at the next edge |
| SpanFacts.ExtUptoStop | Code/homopa.py:385-459 | the stopping invariant holds after every prefix of `p2` the loop reaches, with region B's answers for its edges |
| SpanFacts.StopFacts | Code/homopa.py:385-459 | the final loop state: done, every appended edge passed, the loop settled or failed at the next edge, the path is recorded exactly when an edge passed and it settled or the carried intersection is not empty, and the stored list is that carried intersection |
| SpanFacts.ExtendStops | Code/homopa.py:385-459 | one linked pair: the number of appended edges is the first position where the ratio of the intersection carried along `p2` falls below the threshold, or the position right after the first passing edge equal to the last edge of `p2`; the path is recorded under (A, B) exactly when an edge passed and the loop settled or the carried intersection is not empty, holding exactly that carried intersection |
| SpanFacts.UnlinkedKeepsP1 | Code/homopa.py:472-477 | an unlinked pair keeps `p1` under (A, A) with its own edges unless an entry is already there, and nothing else |
| SpanFacts.HeadNotLinked | Code/HoMoPaD/homopa.py:248-249 | a pair whose `p2` head is not linked: the current copy stores `p1` under (A, A), the older copy changes nothing |
| SpanFacts.SpansFromJobs | Code/homopa.py:441-458 | every spanning path comes from one linked pair before it, and a linked pair adds at most one |
| SpanFacts.CarriedIntersection | Code/homopa.py:406-417 | a worked pair: an edge that shares nothing with the carried list keeps it, and the path is recorded with the earlier objects |
| Worker.FindPath | Code/homopa.py:1310-1313 | the objects of the first record whose path is the request, and nothing exactly when no record has that path |
| Worker.Lookup | Code/homopa.py:1298-1316 | kind 1 searches the bucket of the request's length, kind 2 the homoedge bucket 0, and any other kind finds nothing |
| Worker.PathsOnly | Code/homopa.py:1037-1040 | the reply to "Homopath_list" has the table's keys and, under each, its paths in order without their objects |
| Worker.ServeSticky | Code/homopa.py:1020-1023 | once the worker has failed or closed, later requests change nothing |
| Worker.ServeLoop | Code/homopa.py:1011-1102 | the request loop computes the serving specification: every request answered in turn until "[-1]" closes the server or a request raises |
| Worker.ServeRule | Code/homopa.py:1011-1099 | before the first stop every request gets its answer, in order, and the server stays open |
| Worker.StopCloses | Code/homopa.py:1020-1023 | after the first "[-1]" no request is read, and the server is closed |
| Worker.ObjsReadBack | Code/homopa.py:1053-1071 | the text of the worker's object set reads back as that set under the coordinator's parsing, and an empty set cannot be read |
| Worker.IntegersReadBack | Code/homopa.py:1047-1051 | a worker with homopaths sends `str(total_information_integers)`, and `int()` reads it back |
| Worker.LookupGood | Code/homopa.py:1094 | for a table the engine built, every object list a lookup returns belongs to a stored walk of homoedges and holds exactly the objects its edges share |
| Wire.ShowAll | Code/homopa.py:1056 | one decimal text per object, in the set's iteration order |
| Wire.ParseAll | Code/homopa.py:211 | the set comprehension over the pieces fails only with ValueError |
| Wire.ParseAllEach | Code/homopa.py:211 | the pieces parse exactly when each of them is an int, and the set holds exactly the ints they read as |
| Wire.ParseHead | Code/homopa.py:211 | one element's text, with or without the blank `str(set)` puts after a comma, reads back as that element and holds no comma |
| Wire.ParseJoined | Code/homopa.py:210-211 | the text between the braces of a non-empty set, split at commas and stripped, reads back as the set |
| Wire.ParseJoinedStep | Code/homopa.py:210-211 | one more element in front of the text keeps the read-back |
| Wire.SetTextRoundTrip | Code/homopa.py:210-211 | what `str(Uniqueobjs)` prints reads back as exactly those objects; an empty set prints as `set()`, which fails with ValueError |
| Engine.Round1Sticky | Code/homopa.py:1750-1820 | once a round-1 cell has raised, the later rows change nothing |
| Engine.Round1 | Code/homopa.py:1728-1820 | the round-1 loops over the matrix compute the round-1 specification: the homoedges with their objects and the restricted adjacency for round 2 |
| Engine.ColsErr | Code/homopa.py:1825-1899 | a failed state passes through the cells of a row unchanged |
| Engine.ColsSticky | Code/homopa.py:1825-1899 | once a cell has raised, the later columns change nothing |
| Engine.RowsSticky | Code/homopa.py:1825-1899 | once a cell has raised, the later rows change nothing |
| Engine.RoundN | Code/homopa.py:1750-1899 | one round n >= 2 over every row path and every column, in row-major order, computes the round specification |
| Engine.RemoveFirst | Code/homopa.py:1978 | `list.remove` keeps only elements of the list and drops exactly one element when the value occurs |
| Engine.RemoveMatching | Code/homopa.py:1976-1978 | the removal loop over a bucket, with Python's index-based iterator, computes `IterRemove` |
| Engine.Prune | Code/homopa.py:1971-1978 | the pruning loops after round n compute the pruning specification on bucket n - 1 |
| Engine.Run | Code/homopa.py:1584-2264 | `calculate_obj_id_intersection` from n = 1 computes the run specification: round 1 fills buckets 0 and 1, then rounds recurse while the last round produced records and n < 100 |
| EngineRounds.Round1Err | Code/homopa.py:1783 | the first `i` rows of round 1 fail exactly when the object total is zero and one of them is an adjacency key |
| EngineRounds.Round1Out | Code/homopa.py:1786-1817 | after the first `i` rows, a record is emitted exactly for a homoedge among them, as `[[e], objs]`, and the next adjacency holds exactly the homoedges with their successors |
| EngineRounds.Round1Rule | Code/homopa.py:1750-1820 | round 1 fails exactly on a repeated edge (older copy) or a zero total with an observed key; otherwise an observed edge is a homoedge exactly when it is an adjacency key whose ratio passes |
| EngineRounds.ColsErrIff | Code/homopa.py:1832-1872 | the cells of one row fail exactly when the denominator is zero and one of the columns is linked |
| EngineRounds.ColsOut | Code/homopa.py:1832-1899 | the cells of one row add exactly the records `p + [c]` of the linked columns that pass and that the cycle guard accepts |
| EngineRounds.RowsErrIff | Code/homopa.py:1825-1872 | the first `i` rows fail exactly when the denominator is zero and one of them has a linked column |
| EngineRounds.RowsOut | Code/homopa.py:1825-1899 | after the first `i` rows, the records are exactly the passing, guarded extensions `p + [c]` with `p`'s objects that occur among `c`'s |
| EngineRounds.RoundNRule | Code/homopa.py:1825-1899 | round n >= 2 emits exactly the passing, guarded extensions of the row paths by their successors; its failures are repeated row paths (older copy) and a zero denominator with a linked cell |
| EngineRun.Round1UptoErrKind | Code/homopa.py:1783 | round 1 can only fail with ZeroDivisionError |
| EngineRun.ColsErrKind | Code/homopa.py:1872 | a round-n cell can only fail with ZeroDivisionError |
| EngineRun.RowsErrKind | Code/homopa.py:1872 | a round n >= 2 can only fail with ZeroDivisionError |
| EngineRun.FirstObjsOfRow | Code/homopa.py:1841-1844 | the objects found for a row path are those of a record with that path |
| EngineRun.FirstEdgeObjsOfSingle | Code/homopa.py:1847-1850 | the objects found for a column are that homoedge's last-row objects |
| EngineRun.KeepElems | Code/homopa.py:1857-1861 | the nested intersection loop keeps exactly the common objects |
| EngineRun.GuardedExtend | Code/homopa.py:1877-1880 | an extension the cycle guard accepts is again guarded |
| EngineRun.Extend | Code/homopa.py:1883-1893 | a record emitted by round n + 1 is again a guarded walk of homoedges whose objects are exactly those its edges share, one edge longer |
| EngineRun.RoundStep | Code/homopa.py:1825-1899 | one more round keeps the restricted adjacency within the homoedges and emits only good records of n + 1 edges |
| EngineRun.InvBuckets | Code/homopa.py:1799-1806 | the buckets after round 1 have the shape of a finished table |
| EngineRun.BucketsUpdate | Code/homopa.py:1888-1890 | appending good records of n + 1 edges to bucket n + 1 and pruning bucket n keeps the buckets' shape |
| EngineRun.AddPrune | Code/homopa.py:1971-1978 | appending round n + 1's records and pruning bucket n never raises KeyError and keeps the buckets' shape |
| EngineRun.PruneStep | Code/homopa.py:1971-2259 | one more round and its pruning keep the recursion invariant |
| EngineRun.RoundsFromFacts | Code/homopa.py:2252-2259 | the recursion fails only with IndexError or ZeroDivisionError, and otherwise returns a table of the finished shape |
| EngineRun.RunFacts | Code/homopa.py:1584-2264 | a run fails only with IndexError or ZeroDivisionError; otherwise every bucket key is in 0..100, bucket 0 holds the homoedges unpruned, and every record of bucket k >= 1 has k edges, is a guarded walk of homoedges and carries exactly the objects its edges share |
| EnginePrune.WithoutAppend | Code/homopa.py:1976-1978 | filtering distributes over concatenation |
| EnginePrune.WithoutMem | Code/homopa.py:1976-1978 | a record survives the filter exactly when its path is not removed |
| EnginePrune.DistinctRemoveAt | Code/homopa.py:1978 | removing one record keeps the paths distinct |
| EnginePrune.WithoutTwice | Code/homopa.py:1975-1978 | filtering by two sets in turn is filtering by their union |
| EnginePrune.RemoveFirstAt | Code/homopa.py:1978 | `list.remove` of the element at `idx`, when no earlier element equals it, removes exactly that position |
| EnginePrune.IterRemoveNone | Code/homopa.py:1976-1978 | past the last record with the path, the removal loop changes nothing |
| EnginePrune.IterRemoveHit | Code/homopa.py:1976-1978 | when the record at `idx` is the match and paths are distinct, it goes and nothing after it matches |
| EnginePrune.IterRemoveFrom | Code/homopa.py:1976-1978 | from `idx` on, with no earlier match and distinct paths, the removal loop is a filter |
| EnginePrune.IterRemoveFilters | Code/homopa.py:1976-1978 | with distinct paths in the bucket, the removal loop drops exactly the records with that path |
| EnginePrune.IterRemoveSkipsDuplicate | Code/homopa.py:1976-1978 | without distinct paths the loop is not a filter: of two equal records the second is skipped and survives |
| EnginePrune.IterRemoveSubset | Code/homopa.py:1976-1978 | the removal loop only removes records |
| EnginePrune.ApplyWindowsDistinct | Code/homopa.py:1974-1978 | removing the windows in turn from a bucket with distinct paths filters out every record whose path is a window |
| EnginePrune.RepeatDistinct | Code/homopa.py:1973-1978 | repeating the window removals changes nothing after the first pass |
| EnginePrune.PruneSubset | Code/homopa.py:1971-1978 | pruning only ever removes records |
| EnginePrune.PruneDistinct | Code/homopa.py:1971-1978 | on a bucket with distinct paths, pruning filters out every record whose path is a window of a path of bucket n |
| EnginePrune.WindowsOfFullPath | Code/homopa.py:1973-1974 | a path of n edges is visited once and has exactly two windows of n - 1 edges: its prefix and its suffix |
| EnginePrune.GoneOfFullPaths | Code/homopa.py:1973-1974 | the removed paths are exactly the prefixes and suffixes of the bucket-n paths |
| EnginePrune.PruneRule | Code/homopa.py:1971-1978 | after round n >= 2, bucket n - 1 keeps, in order, exactly the records that are neither the prefix nor the suffix of a bucket-n path |
| EngineDistinct.DistinctSnoc | Code/homopa.py:1888-1890 | helper: appending a record with a new path keeps a bucket's paths distinct |
| EngineDistinct.DistinctConcat | Code/homopa.py:1888-1890 | helper: two buckets with distinct paths, none shared, concatenate to one with distinct paths |
| EngineDistinct.Round1Distinct | Code/homopa.py:1750-1820 | with distinct sensor edges, round 1 emits distinct one-edge paths, each a sensor edge |
| EngineDistinct.AppendCol | Code/homopa.py:1825-1890 | the cell of a further column appends a path that differs from those of the row's earlier cells |
| EngineDistinct.ColsDistinct | Code/homopa.py:1825-1890 | the cells of a row path `p` keep the earlier records and append distinct paths, each `p` followed by an adjacency key |
| EngineDistinct.ExtendedRows | Code/homopa.py:1825-1890 | helper: one-edge extensions of distinct row paths differ across rows |
| EngineDistinct.RowsDistinct | Code/homopa.py:1825-1899 | on rows with distinct paths, no two emitted paths are equal, and each is a row path followed by one edge |
| EngineDistinct.RoundNDistinct | Code/homopa.py:1825-1899 | round n >= 2 on rows with distinct paths emits distinct paths, each a row path followed by one edge |
| EngineDistinct.PruneCovers | Code/homopa.py:1971-1978 | pruning a bucket with distinct paths leaves distinct records of it, none the prefix or the suffix of a bucket-n path |
| EngineDistinct.MaximalUpdate | Code/homopa.py:1971-1978 | after bucket n is pruned against the new bucket n + 1, still no bucket k >= 1 holds the prefix or the suffix of a bucket-(k + 1) path |
| EngineDistinct.DistinctUpdate | Code/homopa.py:1971-1978 | helper: replacing buckets n and n + 1 by buckets with distinct paths keeps every bucket distinct |
| EngineDistinct.DStep | Code/homopa.py:1971-2259 | one more round and its pruning keep every bucket distinct, bucket n + 1 the round's records, and the pruned buckets maximal |
| EngineDistinct.RoundsFromDistinct | Code/homopa.py:2252-2259 | the recursion returns a table whose buckets hold distinct paths and whose buckets k >= 1 hold no prefix or suffix of a path one edge longer |
| EngineDistinct.RunDistinct | Code/homopa.py:1584-2264 | for the older copy, or for distinct sensor edges, a finished run has distinct paths in every bucket, so each pruning step removed exactly the prefixes and suffixes of the next bucket's paths, and no record left in bucket k >= 1 is the prefix or the suffix of a record of bucket k + 1 |
| EngineDistinct.RepeatedEdgeRepeatsHomoedge | Code/homopa.py:1750-1820 | with the current copy, a sensor file that lists edge 5 twice gives bucket 1 the homoedge `[5]` twice |
| EngineDistinct.RepeatedEdgeRound1 | Code/homopa.py:1750-1820 | with the current copy, round 1 over a sensor file listing edge 5 twice emits the record for `[5]` twice and keeps the whole adjacency |
| Engine.Step1 | Code/homopa.py:1750-1820 | a round-1 cell leaves the adjacency for round 2 a well-formed dictionary |
| Engine.Round1Spec | Code/homopa.py:1728-1820 | round 1 leaves a well-formed adjacency for round 2, or fails (the older copy with IndexError on a repeated sensor edge) |
| Engine.Cell | Code/homopa.py:1832-1899 | one cell of round n >= 2 leaves the adjacency for the next round a well-formed dictionary |
| Engine.RoundNSpec | Code/homopa.py:1825-1899 | a round n >= 2 leaves a well-formed adjacency for the next round, or fails (the older copy with IndexError on a repeated row path) |
| Loaders.ConnSticky | Code/homopa.py:1470-1474 | once a line has raised, later lines change nothing |
| Loaders.ReadConnections | Code/homopa.py:1445-1476 | the loop over the adjacency file computes the adjacency specification |
| Loaders.ConnUptoRule | Code/homopa.py:1470-1474 | the first `i` lines fail exactly when one of them is blank, with ValueError; otherwise the dictionary's key list is the deduplicated sequence of the lines' first integers, in first-seen order, and each key maps to the rest of its last line |
| Loaders.ConnRule | Code/homopa.py:1445-1476 | a blank line raises ValueError; otherwise every line's first integer maps to the rest of its last line, the keys are listed in first-seen order, and the count is the number of distinct first integers |
| Loaders.ParseLineRule | Code/homopa.py:1519-1556 | a line fails exactly when it is blank or, hashed, has no raw count; a parsed line keeps its edge and its object fields, each once (raw) or all in order with the raw count (hashed), and accounts for 1 + its distinct objects or for all its fields |
| Loaders.LoadSticky | Code/homopa.py:1514-1562 | once a line has raised, later lines change nothing |
| Loaders.LoadBad | Code/homopa.py:1519-1544 | a bad line ends the load, with ValueError when blank and IndexError otherwise |
| Loaders.LoadDone | Code/homopa.py:1559-1579 | a finished load returns the rows, the object set, its size, four bytes per integer and the integer count |
| Loaders.LoadStep | Code/homopa.py:1514-1559 | one more good line appends its row, adds its objects and its integers |
| Loaders.AddObjects | Code/homopa.py:1530-1532 | the object loop adds every object to the set and one integer per object |
| Loaders.PrepareData | Code/homopa.py:1481-1579 | `prepare_data_from_file` computes the load specification |
| Loaders.LoadLineErr | Code/homopa.py:1519-1544 | a line step fails exactly after an earlier failure or on a bad line |
| Loaders.LoadUptoErr | Code/homopa.py:1514-1559 | the first `i` lines fail exactly when one of them is bad |
| Loaders.ParseCounts | Code/homopa.py:1522-1556 | the parsed line's objects, and the integers it accounts for: 1 + its distinct objects (raw) or all its fields (hashed) |
| Loaders.LoadUptoRule | Code/homopa.py:1514-1562 | after `i` good lines: one row per line in order, the union of their object fields, and the integer count |
| Loaders.LoadRule | Code/homopa.py:1481-1579 | an empty file leaves the byte total unbound, a blank line raises ValueError and a hashed line without a raw count raises IndexError; otherwise one row per line with its edge and objects, the union of all objects, and four bytes per integer |
| Partition.ParseAllRule | Code/preparation.py:643-657 | reading a map file succeeds exactly when every line holds a seven-field record; the records then come out in line order, and a failure is the error of some bad line |
| Partition.ParseAllSticky | Code/preparation.py:645-657 | once a prefix of the lines fails to read, the whole file fails with the same error |
| Partition.ReadBack | Code/preparation.py:680-686 | the lines a part's file is written with read back as exactly the records of that part |
| Partition.MinMaxX | Code/preparation.py:664-665 | the minimum and maximum are the least and greatest x-coordinate among the endpoints of the records, and each is attained by some endpoint |
| Partition.PartitionData | Code/preparation.py:718-785 | the left/right split loop computes the parts of the bisection specification: one part '1' at depth 0, parts '1' and '2' otherwise |
| Partition.SideRule | Code/HoMoPaD/preparation.py:811-830 | in both copies a record goes to the side of its endpoint farthest from the split line, the first endpoint winning a tie; records wholly on one side stay there, and the older copy's extra crossing test never drops a record |
| Partition.BisectRule | Code/preparation.py:735-785 | every record lands in exactly one of the two parts and each part keeps the input order; at depth 0 every record is in part '1' |
| Partition.PartFar | Code/preparation.py:752-771 | every record of the left part has its far endpoint on or left of the split line; every record of the right part has it beyond the line |
| Partition.PartSplits | Code/preparation.py:750-771 | the two parts together are a permutation of the input records |
| Partition.PartOrder | Code/preparation.py:750-771 | each part is a subsequence of the input |
| Partition.PartSides | Code/preparation.py:750-771 | every record of a part was classified to that part's side, in both copies of the classification |
| Partition.ReadRecords | Code/preparation.py:643-657 | the read loop yields the records of the file, or the error of the first line it cannot read |
| Partition.RecursivelyMapPartition | Code/preparation.py:621-715 | the recursion reads its file and writes the files of the recursive specification, stopping once the level passes the depth |
| Partition.MapLevel | Code/preparation.py:663-715 | after the read: split at the midpoint, write both parts, and recurse into each non-empty part at the next level |
| Partition.MainPartitioningMap | Code/preparation.py:588-615 | the run starts at level 0 when the depth is 0 and at level 1 otherwise |
| Partition.DepthZero | Code/preparation.py:668-686 | at depth 0 the single file written is `<prefix>10.txt` and holds every record |
| Partition.DeeperIsLevel | Code/preparation.py:704-715 | recursing into a non-empty part at a level within the depth writes the same files as splitting the part directly; an empty part or a level past the depth writes nothing |
| Partition.LevelOk | Code/preparation.py:663-715 | once at least one record has been read, no level of the recursion fails |
| Partition.MapPartitionOk | Code/preparation.py:643-666 | the run fails exactly when the input does not read or holds no record; it then fails with the read's error, or with ValueError from `min` of nothing |
| Partition.LevelLevels | Code/preparation.py:639-715 | every file is written at a level between the starting level and the depth |
| Partition.LevelFiles | Code/preparation.py:688-715 | at a non-zero depth a level writes its two parts, then the files below the left part, then the files below the right part |
| Partition.LevelBags | Code/preparation.py:688-715 | with a non-zero depth, each level from the starting one to the depth holds every input record exactly once across its files |
| Partition.DeeperBag | Code/preparation.py:704-715 | the recursion below one part adds nothing at its own level and, at each deeper level within the depth, exactly that part's records |
| Partition.LevelNames | Code/preparation.py:692-700 | every file is named `<prefix><sides><level>.txt`, with one part digit per level from the starting level down to the file's |
| Partition.MainPartitionRule | Code/preparation.py:588-715 | with a positive depth the files lie at levels 1 to the depth, are named by their ancestors' digits, and at each level together hold every input record exactly once |
| Regions.CreateRegionalEdgeConnections | Code/preparation.py:885-920 | the lines written to a regional file are the filter specification applied to the first fields of the map file's lines and to the network-wide file's lines |
| Regions.RegionalRule | Code/preparation.py:898-920 | the regional file is a subsequence of the network-wide file; a line occurs in it as often as in the input when its first field is the first field of some map line, and otherwise never |
| Regions.KeyIn | Code/preparation.py:901 | a field is among the map's keys exactly when some map line has it as its first comma field |
| Regions.RegionalCount | Code/preparation.py:917-920 | every line whose first field is a key keeps its multiplicity, and every other line is dropped |
| Regions.RegionalOrder | Code/preparation.py:917-920 | the kept lines keep their order |
| Regions.FirstDigitFrom | Code/preparation.py:867 | the scan finds the first digit at or after the start position, or reports that there is none |
| Regions.RunEnd | Code/preparation.py:867 | the scan stops at the end of the run of digits that starts at the given position |
| Regions.SearchDigitsRule | Code/preparation.py:867-870 | the `\d+` search fails exactly when the name holds no digit; otherwise it returns the leftmost maximal run of digits |
| Regions.SearchNamed | Code/preparation.py:865-879 | for a name built from a digit-free prefix, a run of digits and an extension, the search returns exactly those digits |
| Regions.SearchDigitsShape | Code/preparation.py:877-878 | a match consists of digits only, so `int` of it does not raise |
| Regions.CollectRegionIds | Code/preparation.py:860-882 | the directory loop returns the region-id specification over the listed names |
| Regions.RegionIdsRule | Code/preparation.py:863-879 | there is one id per listed map file whose name holds a digit, in listing order, and the m-th id comes from the m-th such name |
| Regions.Wanted | Code/preparation.py:863-870 | every selected name yields a region id, and the selected names keep the listing order |
| RegionConns.ParsedAt | Code/preparation.py:940-945 | entry `k` of the parsed listing is listed file `k`, with the id `int` gives its name's middle part |
| RegionConns.ParsedAll | Code/preparation.py:940-945 | the parsed listing pairs every listed file with the id its name yields, entry by entry |
| RegionConns.OtherFile | Code/preparation.py:964-981 | one other file: A's own file is skipped; any other gets its row, created empty if absent, filled from its lines; it fails only with ValueError, and only when that file's name or a line is malformed |
| RegionConns.OwnLine | Code/preparation.py:953-981 | a nonblank line of A's file: following its successors extends A's entry from the lines before it to the lines up to it; it fails only with ValueError on a malformed listing |
| RegionConns.ReadOther | Code/preparation.py:973-981 | reading another region's file either fails with ValueError on a blank line, or appends the successor once per line of that file that starts with it |
| RegionConns.OverOthers | Code/preparation.py:963-981 | the loop over the other files computes the specification for one successor; it fails only with ValueError when some listed file is malformed, and it succeeds whenever all are well formed |
| RegionConns.OverNexts | Code/preparation.py:959-981 | the loop over an edge's successors computes the specification; it fails only with ValueError on a malformed listing, and succeeds on a well formed one |
| RegionConns.OverOwnLines | Code/preparation.py:953-981 | the loop over region A's own lines computes the specification from an empty entry, under the same error rules |
| RegionConns.CreateRegionConnectionsForTopLeader | Code/preparation.py:923-1002 | the function returns the connection specification over the listed regional files, or ValueError |
| RegionConns.OverFiles | Code/preparation.py:943-981 | every listed file resets and then fills its own entry; the run fails with ValueError exactly when some listed name or line is malformed |
| RegionConns.OneFile | Code/preparation.py:945-950 | one file's pass resets its entry and then fills it from its lines; it fails only with ValueError, and only when the listing is malformed |
| RegionConnsFacts.RowRule | Code/preparation.py:975-981 | for successor `s`, the innermost loop appends `s` to edge `e`'s list once per line of the other file that starts with `s` |
| RegionConnsFacts.AddHitsTwice | Code/preparation.py:980 | appending two batches of hits under the same edge equals appending their concatenation |
| RegionConnsFacts.OthersRule | Code/preparation.py:963-981 | one pass over the other files gives every other region an entry, adds to each its matches for `s`, and leaves every other entry unchanged (distinct file ids) |
| RegionConnsFacts.NextsRule | Code/preparation.py:959-981 | over an edge's successors, each other region's row gains, under that edge, its hits for every successor in turn (distinct file ids) |
| RegionConnsFacts.LinesRule | Code/preparation.py:953-981 | region A's entry has an entry for each other region exactly when some line of A has a successor, and each such row matches A's lines edge by edge (distinct file ids) |
| RegionConnsFacts.ConnUptoRule | Code/preparation.py:943-950 | after the first `k` files, exactly the ids of those files have entries, and each is filled from its own file's lines (distinct file ids) |
| RegionConnsFacts.FirstsRule | Code/preparation.py:977-978 | a value is among the first values of a file's lines exactly when some nonblank line starts with it |
| RegionConnsFacts.FlatOutside | Code/preparation.py:980 | an edge that starts no line of A gets no list |
| RegionConnsFacts.RowRefRule | Code/preparation.py:953-981 | a row that matches A's lines edge by edge is the reference row |
| RegionConnsFacts.HitsCount | Code/preparation.py:959-981 | among an edge's hits, successor `s` appears as often as it is listed times the number of lines of B's file that start with it |
| RegionConnsFacts.FlatCount | Code/preparation.py:953-981 | under edge `e`, successor `s` appears as often as it follows `e` in A's lines times the number of lines of B's file that start with `s` |
| RegionConnsFacts.EntryRule | Code/preparation.py:950-981 | region A's entry has one for each other region B exactly when some line of A has a successor, holding the reference row, and none for A itself (distinct file ids) |
| RegionConnsFacts.MapRule | Code/preparation.py:937-1002 | the returned map has an entry per listed id; region A's entry names each other region exactly when A's file has a successor, holding the reference row built from B's first values, and never names A (distinct file ids) |
| Sensors.InvertMotions | Code/preparation.py:495-512 | the reading loop builds the inversion of the motion lines: each edge maps to the objects whose motions pass it |
| Sensors.AddLine | Code/preparation.py:501-512 | one motion line adds its object under each of its edges, unless the object is already listed there |
| Sensors.SensorLines | Code/preparation.py:529-532 | one line per key, in key order, made of the edge, a comma and the comma-joined objects under it |
| Sensors.WriteDataToSensorsFile | Code/preparation.py:478-532 | the sensor lines written are those of the inversion of the motion lines |
| Sensors.KeysRule | Code/preparation.py:506-509 | the keys are the distinct edges of all motions in first-seen order, and exactly the keys have lists |
| Sensors.AddObjKeys | Code/preparation.py:506-509 | adding one motion's edges extends the keys by its new edges, in order |
| Sensors.ValsRule | Code/preparation.py:506-512 | each edge's list holds the distinct objects of the motions through it, in first-seen order |
| Sensors.AddObjVal | Code/preparation.py:508-512 | adding object `o` over edges `es` appends `o` to the list of each edge in `es` that does not hold it yet, and changes no other list |
| Sensors.InversionRule | Code/preparation.py:495-512 | object `o` is listed under edge `e` exactly when `e` occurs in a motion of `o`; an edge is a key exactly when it occurs in some motion; no list and not the keys hold a duplicate |
| Sensors.ObjsOfRule | Code/preparation.py:502-503 | an object is among the objects of the motions through `e` exactly when one of its motion lines names `e` |
| Sensors.AllEdgesRule | Code/preparation.py:503-506 | an edge is among all the motions' edges exactly when some motion line names it |
| Sensors.SensorLineRoundTrip | Code/preparation.py:524-532 | splitting a written sensor line at commas gives back its edge followed by its objects, and that list is never empty |
| Sensors.KeyTokens | Code/preparation.py:501-512 | keys and the objects under them contain no comma, and every key has at least one object |
| Sensors.TokensFree | Code/preparation.py:501-503 | every token of a motion line is comma-free, since it comes from a split at commas |
| Successors.FirstError | Code/preparation.py:219-230 | the first pass raises no error exactly when every line has at least eight fields |
| Successors.FindConnectedEdges | Code/preparation.py:201-264 | the two passes compute the successor specification: the successor sets and their count, or the first error |
| Successors.FirstPass | Code/preparation.py:214-230 | the first pass fails with the error of the first line it cannot read; otherwise it returns each edge's end node from its last line, and the set of edge ids |
| Successors.EndsKeys | Code/preparation.py:224-228 | the end-node map is keyed by exactly the edge ids read |
| Successors.Connect | Code/preparation.py:246-250 | comparing one line against every edge adds it to the successors of exactly those edges whose end node is its start node |
| Successors.MainStep | Code/preparation.py:239-250 | line `k` is added to the successors of exactly the edges that end where it starts |
| Successors.SuccStep | Code/preparation.py:246-250 | the successors of a node grow by line `k`'s edge exactly when line `k` starts at that node |
| Successors.EndsAt | Code/preparation.py:227-228 | the end node kept for an edge is the one on its last line |
| Successors.SuccessorRule | Code/preparation.py:201-264 | the function succeeds exactly when the file has a line and every line has eight fields, and otherwise fails with ValueError, IndexError or StopIteration; on success every edge has a set, the count is the number of distinct edges, and `c` succeeds `m` exactly when a line after the first has edge `c` starting at the end node of `m`'s last line |
| Successors.FirstErrorKind | Code/preparation.py:222-230 | a line the first pass cannot read raises ValueError or IndexError |
| Successors.FirstLineSkipped | Code/preparation.py:236-239 | because of the `next(infile)` before the second loop, the edge on the first line succeeds no edge unless a later line repeats it |
| Successors.SuccessorAllRule | Code/preparation.py:236-250 | with the second pass comparing every line, the passes succeed exactly when every line has eight fields; `c` then succeeds `m` exactly when some line, the first included, has edge `c` starting at the end node of `m`'s last line |
| Successors.FirstLineMissed | Code/preparation.py:236-250 | on a two-line file where edge 2 ends where edge 1 starts, the passes as written omit edge 1 from the successors of edge 2, and the corrected ones list it |
| Results.WriteRegion | Code/preparation.py:1056-1060 | one region's line is its name, a colon, the written paths' JSON each followed by a comma, and three newlines |
| Results.WriteResultsToFile | Code/preparation.py:1053-1060 | the loops below the header write, per main region, its name and then one line per region |
| Results.LogBodyStep | Code/preparation.py:1053-1054 | each further main region appends its name, a newline and its block of region lines |
| Results.WriteMain | Code/preparation.py:1055-1060 | one main region's block is the concatenation of its region lines in order |
| Results.KeptText | Code/preparation.py:1057-1059 | a region line lists exactly the paths whose value is not -1, in order, as their JSON each followed by a comma |
| Results.KeptRule | Code/preparation.py:1057-1059 | a path is written exactly when some entry holds it with a value other than -1, and no more paths are written than there are entries |
| Results.Brackets | Code/preparation.py:1066 | each path becomes its bracketed comma-joined text, in order |
| Results.WriteWithBrackets | Code/preparation.py:1064-1068 | the bracket file gets one line per region, in order, made of the header fields, the region key and its formatted paths |
| Results.FormatBuckets | Code/preparation.py:1066 | the comprehension yields the formatting specification of the buckets |
| Results.FormattedPaths | Code/preparation.py:1066 | a region's line writes, in order, the bracketed paths of every bucket except key 0, the single edges |
| Results.PositiveRule | Code/preparation.py:1066 | a path is written exactly when it is in some bucket with a positive key |
| Results.CollectValues | Code/preparation.py:1073-1078 | `dict_values_temp` is the text of every edge id of every path of every bucket of every region, in order |
| Results.AllTogetherRule | Code/preparation.py:1073-1083 | an id's text is in the "all together" set exactly when the id occurs in some path of some bucket of some region, and the set has one text per distinct id |
| Results.AllIntsRule | Code/preparation.py:1074-1078 | an id is collected exactly when some path of some bucket of some region holds it |
| Results.BucketIntsRule | Code/preparation.py:1075-1078 | within one region, an id is collected exactly when some path of some bucket holds it |
| Results.PathIntsRule | Code/preparation.py:1076-1078 | within one bucket, an id is collected exactly when some path holds it |
| Results.ShowInjective | Code/preparation.py:1082 | distinct ids have distinct texts, so the set of texts is as large as the set of ids |
| Results.ShowInj | Code/preparation.py:1078 | two ids with the same decimal text are equal |
| Results.AllTogetherEnds | Code/preparation.py:1083-1087 | for any iteration of `set_items`, the "all together" line ends with `]`, so the repair that appends one never fires |
| Results.AllTogetherItems | Code/preparation.py:1082-1083 | between the brackets, splitting at the commas gives back the iteration of `set_items`: one text per distinct edge id, and nothing when there are none |
| Results.PacketRule | Code/HoMoPaD/preparation.py:1029-1035 | a packet costs four bytes per integer of the sensor line it stands for, as loaded: edge id and objects when raw, plus the raw count when hashed; the hashed packet is four bytes larger |
| ExperimentFolder.Group | Code/experiment_creator.py:360 | one `(\d+)_` at the start of a name is a nonempty run of digits closed by `_`, and the name is those digits, the `_` and the rest |
| ExperimentFolder.Groups | Code/experiment_creator.py:360 | a match of `n` repeated groups yields exactly `n` groups |
| ExperimentFolder.GroupsDigits | Code/experiment_creator.py:360 | each group found is a nonempty run of digits |
| ExperimentFolder.FolderName | Code/experiment_creator.py:360-377 | a matching folder name yields exactly five values |
| ExperimentFolder.GroupsOf | Code/experiment_creator.py:360 | digit groups each closed by `_`, followed by any text, match as exactly those groups and that text |
| ExperimentFolder.GroupOf | Code/experiment_creator.py:360 | a run of digits closed by `_` is matched as one group |
| ExperimentFolder.GroupsNamed | Code/experiment_creator.py:360 | conversely, a match splits its text into the groups found, each closed by `_`, and the rest |
| ExperimentFolder.FolderNameOf | Code/experiment_creator.py:360-377 | a name that is `Experiment_`, five runs of digits each closed by `_`, and anything yields the values of those runs |
| ExperimentFolder.FolderNameShape | Code/experiment_creator.py:371-377 | every name that matches has that shape |
| ExperimentFolder.FolderNameRoundTrip | Code/experiment_creator.py:373-377 | a folder name built from the decimal text of five parameters yields those parameters back |
| ExperimentFolder.SeedRoundTrip | Code/experiment_creator.py:394-397 | a second line of `seeds.txt` written as a seed, `;` and anything yields that seed back, negative or not |
| ExperimentFolder.CopiesAgree | Code/HoMoPaD/experiment_creator.py:245-310 | the two copies agree wherever the older one returns; the older one raises UnboundLocalError for a missing folder, a name that does not match or a missing seed line, and ValueError for a seed that does not parse, where the current one returns its zero defaults |
| ExperimentFolder.FolderInfoRoundTrip | Code/experiment_creator.py:357-432 | a repeated experiment whose folder is named from its parameters, and whose second seed line starts with the seed and `;`, is recovered exactly by both copies |
| SensorHash.InsertAfter | Code/experiment_creator.py:114 | inserting one line into the sorted prefix adds exactly one element |
| SensorHash.SortByKey | Code/experiment_creator.py:114 | the sort keeps the number of lines |
| SensorHash.InsertCount | Code/experiment_creator.py:114 | an insertion adds exactly the inserted line to the multiset |
| SensorHash.InsertSorted | Code/experiment_creator.py:114 | inserting into a key-sorted sequence leaves it key-sorted |
| SensorHash.InsertWithKey | Code/experiment_creator.py:114 | an insertion places the line after every line with the same key |
| SensorHash.SortRule | Code/experiment_creator.py:114 | `sorted(..., key=...)` is sorted by key, a permutation of its input, and stable: the lines of each key keep their input order |
| SensorHash.KeyedLines | Code/experiment_creator.py:112-114 | when every line parses, there is one keyed line per input line |
| SensorHash.Mask32 | Code/experiment_creator.py:139 | helper for `& 0xffffffff`: the mask yields a value below 2^32 and leaves a value already below 2^32 unchanged |
| SensorHash.MaskAll | Code/experiment_creator.py:138-140 | one masked value per signature value, each below 2^32 |
| SensorHash.HashData | Code/experiment_creator.py:93-149 | the method computes the hashing specification: the parse, the stable sort by first object, and one hashed row per sorted line |
| SensorHash.AllLinesInts | Code/experiment_creator.py:112-113 | the comprehension over the file succeeds exactly when every field of every line is an integer |
| SensorHash.LineInts | Code/experiment_creator.py:112 | one line parses exactly when every field is an integer |
| SensorHash.KeyAll | Code/experiment_creator.py:112-114 | the sort keys are taken from lines that all parse |
| SensorHash.HashSorted | Code/experiment_creator.py:120-142 | the loop over the sorted lines yields each line's hashed row, in order |
| SensorHash.SortedFields | Code/experiment_creator.py:114-128 | every sorted line has at least one object, so the `len(obj_ids) >= 1` test always passes |
| SensorHash.WriteHashed | Code/experiment_creator.py:145-147 | the write loop emits one line per row: id, raw count and signature, comma-joined, with a newline |
| SensorHash.HashedTextRoundTrip | Code/experiment_creator.py:147 | a written hashed line splits at its commas back into the sensor id, the raw count and the signature values, each of which `int` reads back |
| SensorHash.ParseFields | Code/experiment_creator.py:147 | `int` reads back the raw count and every signature value of a hashed line's fields |
| SensorHash.HashedSplit | Code/experiment_creator.py:147 | the comma fields of a hashed line are its id, its count and its signature values |
| SensorHash.HashedIdsFree | Code/experiment_creator.py:121-122 | every written id is a comma field of its input line, so it holds no comma and the round trip applies |
| SensorHash.HashOk | Code/experiment_creator.py:108-149 | hashing succeeds exactly when every field of every line is an integer and every line has an object; a field that is not an integer raises ValueError |
| SensorHash.HashRows | Code/experiment_creator.py:112-142 | on success there is one row per line; the rows follow the lines stably sorted by first object id; each row counts its line's object tokens with repeats, and takes its signature from the distinct ones |
| PairsFile.Runs | Code/experiment_creator.py:253 | every number `re.findall` extracts is a nonempty run of digits |
| PairsFile.ProcessPairs | Code/experiment_creator.py:237-264 | the loops compute the pairing of the numbers extracted from the pairs, in order |
| PairsFile.RunsLead | Code/experiment_creator.py:253 | a run of digits followed by a non-digit, or by nothing, is found whole |
| PairsFile.RunsSkip | Code/experiment_creator.py:253 | a leading non-digit is skipped |
| PairsFile.RunsSep | Code/experiment_creator.py:253 | a run of digits closed by a comma is found whole, and the comma is skipped |
| PairsFile.RunsJoin | Code/experiment_creator.py:253 | the numbers of a comma-separated list of digit runs, followed by a non-digit or nothing, are exactly those runs |
| PairsFile.RunsJoinStep | Code/experiment_creator.py:253 | one more leading digit run in the list is one more leading number |
| PairsFile.ListRuns | Code/experiment_creator.py:253 | the numbers of a bracketed pair text are the decimal texts of its numbers |
| PairsFile.PairTexts | Code/experiment_creator.py:253 | one `[a,b]` text per pair |
| PairsFile.NumbersOfPairs | Code/experiment_creator.py:252-254 | the texts of `n` pairs yield `2n` numbers: the first and second of each pair in turn |
| PairsFile.ZerosVal | Code/experiment_creator.py:261 | helper for the zero-padded encoding: `zfill`'s leading zeros do not change a number's value |
| PairsFile.ShowNatShort | Code/experiment_creator.py:261 | helper for the zero-padded encoding: a number below 1000 has at most three digits |
| PairsFile.EncodeDecode | Code/experiment_creator.py:261 | numbers of at most three digits encode into nine digits; the middle three are `000`, and the first and last three carry the two values |
| PairsFile.PairsRoundTrip | Code/experiment_creator.py:248-264 | for pairs written as `[a,b]` with both below 1000, `process_pairs` gives one code per pair, in order, and each code decodes back to its pair |
| PairsFile.Without | Code/experiment_creator.py:231-234 | the kept fields are exactly the elements other than `[0]`, in order |
| PairsFile.Stripped | Code/experiment_creator.py:232 | each pair field is stripped |
| PairsFile.ReadCompareFile | Code/experiment_creator.py:208-235 | the read loop computes the compare specification over the rows `csv.reader` yields |
| PairsFile.CompareStep | Code/experiment_creator.py:219-234 | one more row with a valid key extends the dictionary by that row's kept fields |
| PairsFile.CompareNext | Code/experiment_creator.py:219-234 | for one row, a failing key makes the whole read fail, and otherwise the dictionary grows by the row's kept fields |
| PairsFile.CompareErr | Code/experiment_creator.py:221-223 | a row whose key fails makes the whole read fail with that error |
| PairsFile.AddPairs | Code/experiment_creator.py:226-234 | one row's grouping creates the key's list when missing, then extends it by the row's kept fields |
| PairsFile.AppendAt | Code/experiment_creator.py:227-234 | creating a missing key's list and then extending it is appending to the key's list; extending by nothing changes nothing |
| PairsFile.GroupStep | Code/experiment_creator.py:219-234 | a further row with a valid key appends its fields to its key's list |
| PairsFile.GroupErr | Code/experiment_creator.py:219-223 | once a key fails, the grouping has failed with that error |
| PairsFile.GroupRule | Code/experiment_creator.py:216-235 | the grouping succeeds exactly when every key does, and otherwise fails with the first failing key's error; on success its keys are the rows' keys and a key's list holds exactly the kept fields of its rows |
| PairsFile.GroupOkRule | Code/experiment_creator.py:219-223 | the grouping fails exactly at the first failing key, with that key's error |
| PairsFile.GroupKeysRule | Code/experiment_creator.py:223-228 | a successful grouping has exactly the rows' keys |
| PairsFile.GroupValsRule | Code/experiment_creator.py:226-234 | in a successful grouping, a key's list holds exactly the kept fields of the rows with that key |
| PairsFile.KeptRule | Code/experiment_creator.py:226-234 | a row keeps exactly its stripped fields from index 6 on that are not `[0]`, in order |
| PairsFile.WriteOutputFile | Code/experiment_creator.py:266-291 | one CSV record per top-leader entry, in the dictionary's order: its first eight columns and its pair column |
| PairsFile.RemoveDoubleQuotes | Code/experiment_creator.py:293-308 | each line is stripped, cleared of quotes and written back with a newline |
| PairsFile.UnquoteRule | Code/experiment_creator.py:303 | a cleaned line holds no `"`, and every other character of the line, in order and as often |
| PairsFile.UnquoteApp | Code/experiment_creator.py:303 | removing quotes from a concatenation removes them from each part |
| PairsFile.UnquotePlain | Code/experiment_creator.py:303 | a text without quotes is unchanged by removing quotes and by the CSV writer's quote doubling |
| PairsFile.UnquoteQuoted | Code/experiment_creator.py:303 | a field the CSV writer put in quotes loses them again |
| PairsFile.UnquoteField | Code/experiment_creator.py:287 | quote removal undoes the CSV writer's quoting of a quote-free field |
| PairsFile.UnquoteJoin | Code/experiment_creator.py:287 | quote removal undoes the CSV writer's quoting of a whole row of quote-free fields |
| PairsFile.WriteClean | Code/experiment_creator.py:287-308 | writing a row of quote-free fields with the CSV writer, reading it back as a line and cleaning it gives the plain comma-joined row, when the row has no white space at its two ends |
| PairsFile.PairedDigits | Code/experiment_creator.py:257-262 | every code `process_pairs` produces consists of digits only |
| PairsFile.NumbersDigits | Code/experiment_creator.py:252-254 | every extracted number consists of digits only |
| PairsFile.JoinListChars | Code/experiment_creator.py:283 | the joined codes hold only digits and commas |
| PairsFile.PairColumnPlain | Code/experiment_creator.py:279-290 | the pair column holds no quote and no line break, and ends in `]` unless it is empty |
| PairsFile.TestingFileLine | Code/experiment_creator.py:310-332 | after writing and quote removal, a top-leader entry's line is its first eight columns and its pair column, comma-joined, provided those columns hold no quote or line break and the first does not start with white space |
| ScriptOutput.LineValues | Code/experiment_creator.py:70-75 | one value per printed line: what `int(line.strip())` gives, or nothing where it raises |
| ScriptOutput.RunScript | Code/experiment_creator.py:61-90 | the read loop and the exit-code test compute the script-result specification |
| ScriptOutput.LastSomeRule | Code/experiment_creator.py:61-75 | the kept value is `n` exactly when some line gives `n` and no later line gives a value; it is nothing exactly when no line gives one |
| ScriptOutput.ScriptResultRule | Code/experiment_creator.py:61-90 | the run reports `n` exactly when the exit code is 0 and `n` is the last line `int()` accepts; it reports None exactly when the exit code is not 0 or no line parses |
| ScriptOutput.PrintedLast | Code/experiment_creator.py:64-84 | a run that exits with 0 after printing `n` on its last line reports `n`, whatever it printed before |
| RepeatScan.SkipFrom | Code/experiment_creator.py:486-501 | the scan skips leading sentinel rows, up to the first row that is not one |
| RepeatScan.DataEnd | Code/experiment_creator.py:486-509 | a run of data rows ends at the first row that is not a data row |
| RepeatScan.ScanRows | Code/experiment_creator.py:469-523 | the current scan returns the table of the first run of data rows after the leading sentinels |
| RepeatScan.ScanRowsOld | Code/HoMoPaD/experiment_creator.py:342-403 | the older scan returns the same table |
| RepeatScan.ScanData | Code/experiment_creator.py:502-509 | a data row starts the run when none has been seen yet, and extends it otherwise |
| RepeatScan.ScanDone | Code/experiment_creator.py:486-523 | wherever the scan stops (the sentinel after the data, an unparsable row, the end), it has collected the table of the first run of data rows |
| RepeatScan.ExtractedRule | Code/experiment_creator.py:472-523 | the table holds exactly the column-7 values of the data run, each mapped to the column 6 of its last row in the run |
| RepeatScan.CollectRule | Code/experiment_creator.py:504 | the keys of a collected run are its column-7 values, and each maps to the column 6 of its last row |

## Left out

- Sockets, the JSON encoding of requests and replies, 1024-byte chunking and brace-terminated reads: a request arrives as a decoded value, and a worker's answer is a function of its table.
- Threads, the condition-variable barrier, locks, events and `time.sleep`: only the order of requests in the coordinator's trace is modelled, not the synchronisation.
- File and directory plumbing: `open`, `os.listdir` (its listing is an input sequence), `shutil` copies, `os.chdir`, `delete_files_except`, `keep_specific_files_and_folders`, `delete_maps_except_longest` and experiment archiving.
- The engine's `help_for_jaccard` branches that dump intermediate results to JSON files and reload them (Code/homopa.py:1906-1966 and 1986-2216): file I/O.
- MinHash itself (datasketch): `SensorHash` takes it as a function parameter; hashed-mode signatures are inputs.
- CSV reading: `csv.reader` rows are given as field sequences, so its handling of quoted fields is not modelled. The writer's minimal quoting (a field holding a comma, a quote or a line break) is modelled, and the round trip is proved for fields without quotes or line breaks.
- `read_top_leader_file`: not modelled; its dictionary is given to `PairsFile.WriteOutputFile` as its items in order.
- `float()`: `PyStr.ParseFloat` accepts decimal notation only; exponents, `inf`, `nan` and digit separators are not modelled.
- Floating point: thresholds, ratios and Cohen's estimate are exact reals; `transmission_cost` (×0.0001 and `round`), `get_size`, timing and the tolerance search in `main_function` are left out.
- Unicode: `\d`, `strip()` and `int()` are modelled for ASCII digits and the ASCII white space `str.isspace` accepts (space, `\t`, `\n`, `\v`, `\f`, `\r` and `\x1c` to `\x1f`); other Unicode white space and digits are not modelled, nor the `_` digit separators `int()` accepts.
- Dictionary and set iteration order is taken as an input where the source's output depends on it (`set_items` in the "all together" line, `mainEdge` sets, the order `os.listdir` lists files). The raw-mode object list of `prepare_data_from_file` is `list(set(...))` in the source, so its order is the set's; the model keeps the objects in first-seen order.
- `total_sum_of_lines` in `recursively_map_partition`: it is passed by value and never returned, so it affects nothing.
- The file names under which regional edge-connection and sensor files are written (`Regional_<name><map number>.txt`), and the second, time-stamped copy of the sensor file: only the written lines are modelled.
- The text `find_connected_edges` writes: the model returns the successor sets and their count.
- The text `create_RegionConnections_for_Top_Leader` writes to `7_ConnectionsBetween_Regions.txt` (one line per region pair and edge, Code/preparation.py:989-999): the model returns the connection map only.
- The header lines of the experiments log (they hold execution times).
- The nested-list branch of the "all together" flattening: every bucket item is modelled as one path of integers.
- Instrumentation counters (`top_leader_integers_*` and the like), prints, and the parameter sweeps in `main` and `main_function`.
- The `remove_extra_Integ == 1` branch of `_Find_Cardinality_Cohen`, which applies `%` to a list.
- Geometry and random generation: `create_network`, `visualize_network`, `rotate_graph`, `create_motions`, `dfs_find_path` and `winsorization_per_sensor` depend on external graph libraries and randomness.
- Engine: an adjacency line that lists the same successor twice makes the source emit the cell twice (the `for edgecon in values` loop); the model's columns are the adjacency keys and emits such a cell once.
- Coordinator: the collection is specified on the decoded readings of the workers' replies (`Coordinator.Expected`); `Coordinator.ReadBack` connects those readings to the replies themselves.
- RegionConnsFacts.MapRule: stated for listings whose files have distinct ids; two files with the same id make the later one's reset overwrite the earlier entry, which the functions model but the lemmas do not describe.
- CoordinatorFacts.TraceRule: the trace holds the messages of collection and termination only. The spanning requests 1 (to region A, Code/homopa.py:362) and 2 (to region B, Code/homopa.py:389), sent between those stages, are not recorded; the spanning step is specified on the workers' answers instead.
- EngineDistinct.RunDistinct: stated for the older copy or for sensor files whose edges are distinct, as the preparation writes them. With the current copy, a repeated edge gives bucket 1 the same homoedge twice (RepeatedEdgeRepeatsHomoedge). On such a bucket the removal loop skips the second of two equal records (EnginePrune.IterRemoveSkipsDuplicate); the functions model this, but no lemma describes what the pruning then leaves.
- PairsFile.PairsRoundTrip: stated for numbers below 1000; a longer number is not padded and the nine-character layout does not hold.
- Partition: the fields of a map file are integers; a field `int()` rejects is not modelled.

## Findings

| source | as written | input that shows it | evidently intended | confidence | as-written member | corrected member |
|---|---|---|---|---|---|---|
| Code/preparation.py:236-239 | the second pass of `find_connected_edges` calls `next(infile)` to skip a header line, but the file `create_network` writes has no header and the first pass reads that line as an edge, so the first line's edge is never listed as a successor | lines `1,10,20,...` and `2,20,10,...`: edge 2 ends at node 10, where edge 1 starts, yet edge 1 is not a successor of edge 2 | compare every line in the second pass | not executed | Successors.FirstLineMissed | Successors.SuccessorAllRule |
